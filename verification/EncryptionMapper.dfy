/** Encrypting and decrypting with the keys of an organisation:
    backend/app/service/encryption_mapper_service.py. */
module EncryptionMapper {
  import opened Ballots
  import opened KeyManagement
  import opened KeysManager
  import opened FieldEncryption
  import KeyRuns

  // ---- What the stored keys make of a value ----

  function WrittenValue(lib: Library, kms: Kms, rows: seq<KeyRow>, args: EncryptionArgs, value: string,
                        searchable: bool, nonce: Nonce): Option<EncryptedField> {
    match Resolved(kms, rows, Slot(args.org, Database), Some(args.version))
    case Key(key, version) =>
      if !searchable then Some(EncryptField(lib, value, key, version, None, nonce))
      else
        (match Resolved(kms, rows, Slot(args.org, Search), Some(args.version))
         case Key(searchKey, _) => Some(EncryptField(lib, value, key, version, Some(searchKey), nonce))
         case _ => None)
    case _ => None
  }

  function SearchTokenFor(lib: Library, kms: Kms, rows: seq<KeyRow>, args: EncryptionArgs,
                          value: string): Option<string> {
    match Resolved(kms, rows, Slot(args.org, Search), Some(args.version))
    case Key(key, _) => Some(SearchToken(lib, value, key))
    case _ => None
  }

  function ReadValue(lib: Library, kms: Kms, rows: seq<KeyRow>, org: Option<Id>,
                     field: EncryptedField): Option<string> {
    match Resolved(kms, rows, Slot(org, Database), Some(field.version))
    case Key(key, _) => DecryptField(lib, field, key)
    case _ => None
  }

  function WrittenStream(lib: Library, kms: Kms, rows: seq<KeyRow>, args: EncryptionArgs, data: Bytes,
                         nonce: Nonce): Option<Bytes> {
    match Resolved(kms, rows, Slot(args.org, Storage), Some(args.version))
    case Key(key, version) => EncryptStream(lib, data, key, version, nonce)
    case _ => None
  }

  function ReadStream(lib: Library, kms: Kms, rows: seq<KeyRow>, args: EncryptionArgs, data: Bytes): Option<Bytes> {
    match StreamVersion(lib, data, args.version)
    case None => None
    case Some(version) =>
      match Resolved(kms, rows, Slot(args.org, Storage), Some(version))
      case Key(key, _) => DecryptStream(lib, data, key)
      case _ => None
  }

  // ---- Whole objects ----

  /** What a column may hold: besides nothing, text or an encrypted field, the dictionary form of a
      field (None when it lacks a key that a field needs), bytes of older rows, or anything else. */
  datatype Column =
    | Null
    | Text(text: string)
    | Sealed(field: EncryptedField)
    | Dictionary(fields: Option<EncryptedField>)
    | Binary(bytes: Bytes)
    | Other

  datatype Field = Field(name: string, value: Option<string>)

  function Plain(value: Option<string>): Column {
    if value.Some? then Text(value.value) else Null
  }

  function TokenName(name: string): string {
    name + "_search_token"
  }

  /** One field's contribution: sealed, with its token where the class wants one, or copied, or dropped. */
  function WithField(lib: Library, kwargs: map<string, Column>, f: Field, secret: set<string>, columns: set<string>,
                     key: Bytes, version: nat, searchKey: Bytes, nonce: Nonce): map<string, Column> {
    if f.name in secret && f.value.Some? then
      var needsToken := TokenName(f.name) in columns;
      var sealed := EncryptField(lib, f.value.value, key, version, if needsToken then Some(searchKey) else None, nonce);
      if needsToken then kwargs[f.name := Sealed(sealed)][TokenName(f.name) := Text(sealed.token.value)]
      else kwargs[f.name := Sealed(sealed)]
    else if f.name in columns then kwargs[f.name := Plain(f.value)]
    else kwargs
  }

  function Kwargs(lib: Library, fields: seq<Field>, secret: set<string>, columns: set<string>,
                  key: Bytes, version: nat, searchKey: Bytes, nonces: nat -> Nonce): map<string, Column> {
    if |fields| == 0 then map[]
    else
      var n := |fields| - 1;
      WithField(lib, Kwargs(lib, fields[..n], secret, columns, key, version, searchKey, nonces), fields[n],
                secret, columns, key, version, searchKey, nonces(n))
  }

  lemma {:induction false} KwargsNext(lib: Library, fields: seq<Field>, secret: set<string>, columns: set<string>,
                   key: Bytes, version: nat, searchKey: Bytes, nonces: nat -> Nonce, i: nat)
    requires i < |fields|
    ensures Kwargs(lib, fields[..i + 1], secret, columns, key, version, searchKey, nonces)
            == WithField(lib, Kwargs(lib, fields[..i], secret, columns, key, version, searchKey, nonces), fields[i],
                         secret, columns, key, version, searchKey, nonces(i))
  {
    assert fields[..i + 1][..i] == fields[..i];
  }

  /** `encrypt_dto`: both keys must exist, and the class must take every argument. */
  function WrittenObject(lib: Library, kms: Kms, rows: seq<KeyRow>, args: EncryptionArgs, fields: seq<Field>,
                         secret: set<string>, columns: set<string>, nonces: nat -> Nonce): Option<map<string, Column>> {
    match Resolved(kms, rows, Slot(args.org, Database), Some(args.version))
    case Key(key, version) =>
      (match Resolved(kms, rows, Slot(args.org, Search), Some(args.version))
       case Key(searchKey, _) =>
         var kwargs := Kwargs(lib, fields, secret, columns, key, version, searchKey, nonces);
         if kwargs.Keys <= columns then Some(kwargs) else None
       case _ => None)
    case _ => None
  }

  /** `decrypt_model` for one name; None when a key is missing, a dictionary is no field, or a tag
      does not match. */
  function ReadColumn(lib: Library, kms: Kms, rows: seq<KeyRow>, org: Option<Id>, row: map<string, Column>,
                      secret: set<string>, name: string): Option<Column> {
    var raw := if name in row then row[name] else Null;
    if name !in secret then Some(raw)
    else
      match raw
      case Null => Some(Null)
      case Text(_) => Some(raw)
      case Sealed(field) => Decrypted(ReadValue(lib, kms, rows, org, field))
      case Dictionary(fields) => if fields.None? then None else Decrypted(ReadValue(lib, kms, rows, org, fields.value))
      case Binary(bytes) => Some(if |bytes| == 0 then Null else Text(lib.lossy(bytes)))
      case Other => Some(Null)
  }

  function Decrypted(text: Option<string>): Option<Column> {
    if text.Some? then Some(Text(text.value)) else None
  }

  /** What each kind of column reads as. A name that is not secret is copied; text written before
      encryption is passed on, bytes are decoded with replacements, and what is none of these is dropped. */
  lemma {:induction false} ColumnReadsAs(lib: Library, kms: Kms, rows: seq<KeyRow>, org: Option<Id>,
                                         row: map<string, Column>, secret: set<string>, name: string)
    ensures var r := ReadColumn(lib, kms, rows, org, row, secret, name);
      && (name !in secret && name in row ==> r == Some(row[name]))
      && (name !in row ==> r == Some(Null))
      && (name in secret && name in row ==>
            match row[name]
            case Null => r == Some(Null)
            case Text(t) => r == Some(Text(t))
            case Sealed(field) => ReadsAsField(lib, kms, rows, org, field, r)
            case Dictionary(None) => r == None
            case Dictionary(Some(field)) => ReadsAsField(lib, kms, rows, org, field, r)
            case Binary(bytes) => if bytes == [] then r == Some(Null) else r == Some(Text(lib.lossy(bytes)))
            case Other => r == Some(Null))
  {
  }

  /** A field is opened with the DATABASE key of the version it names; nothing is read without that key. */
  predicate ReadsAsField(lib: Library, kms: Kms, rows: seq<KeyRow>, org: Option<Id>, field: EncryptedField,
                         r: Option<Column>) {
    var key := PlainKey(kms, rows, Slot(org, Database), field.version);
    var text := if key.None? then None else DecryptField(lib, field, key.value);
    if text.None? then r == None else r == Some(Text(text.value))
  }

  // ---- The service ----

  class EncryptionMapper {
    const lib: Library
    const keys: KeysManager

    constructor (lib: Library, keys: KeysManager)
      ensures this.lib == lib && this.keys == keys
    {
      this.lib := lib;
      this.keys := keys;
    }

    method EncryptValue(value: string, args: EncryptionArgs, searchable: bool, nonce: Nonce)
      returns (r: Option<EncryptedField>)
      requires keys.Valid()
      modifies keys`cache
      ensures keys.Valid()
      ensures r == WrittenValue(lib, keys.kms, keys.repo.rows, args, value, searchable, nonce)
      ensures var database := PlainKey(keys.kms, keys.repo.rows, Slot(args.org, Database), args.version);
        var search := PlainKey(keys.kms, keys.repo.rows, Slot(args.org, Search), args.version);
        && (r.Some? <==> database.Some? && (searchable ==> search.Some?))
        && (r.Some? ==> r.value == EncryptField(lib, value, database.value, args.version,
                                                if searchable then search else None, nonce))
    {
      var database := keys.GetDek(Slot(args.org, Database), Some(args.version));
      if !database.Key? { return None; }
      var searchKey: Option<Bytes> := None;
      if searchable {
        var search := keys.GetDek(Slot(args.org, Search), Some(args.version));
        if !search.Key? { return None; }
        searchKey := Some(search.plain);
      }
      return Some(EncryptField(lib, value, database.plain, database.version, searchKey, nonce));
    }

    method DecryptValue(field: EncryptedField, args: EncryptionArgs) returns (r: Option<string>)
      requires keys.Valid()
      modifies keys`cache
      ensures keys.Valid()
      ensures r == ReadValue(lib, keys.kms, keys.repo.rows, args.org, field)
      ensures var database := PlainKey(keys.kms, keys.repo.rows, Slot(args.org, Database), field.version);
        r == if database.Some? then DecryptField(lib, field, database.value) else None
    {
      var database := keys.GetDek(Slot(args.org, Database), Some(field.version));
      if !database.Key? { return None; }
      return DecryptField(lib, field, database.plain);
    }

    method EncryptStream(data: Bytes, args: EncryptionArgs, nonce: Nonce) returns (r: Option<Bytes>)
      requires keys.Valid()
      modifies keys`cache
      ensures keys.Valid()
      ensures r == WrittenStream(lib, keys.kms, keys.repo.rows, args, data, nonce)
      ensures var storage := PlainKey(keys.kms, keys.repo.rows, Slot(args.org, Storage), args.version);
        r == if storage.None? then None
             else FieldEncryption.EncryptStream(lib, data, storage.value, args.version, nonce)
    {
      var storage := keys.GetDek(Slot(args.org, Storage), Some(args.version));
      if !storage.Key? { return None; }
      return FieldEncryption.EncryptStream(lib, data, storage.plain, storage.version, nonce);
    }

    method DecryptStream(data: Bytes, args: EncryptionArgs) returns (r: Option<Bytes>)
      requires keys.Valid()
      modifies keys`cache
      ensures keys.Valid()
      ensures r == ReadStream(lib, keys.kms, keys.repo.rows, args, data)
      ensures var version := StreamVersion(lib, data, args.version);
        var storage := if version.None? then None
                       else PlainKey(keys.kms, keys.repo.rows, Slot(args.org, Storage), version.value);
        r == if storage.Some? then FieldEncryption.DecryptStream(lib, data, storage.value) else None
    {
      var version := StreamVersion(lib, data, args.version);
      if version.None? { return None; }
      var storage := keys.GetDek(Slot(args.org, Storage), version);
      if !storage.Key? { return None; }
      return FieldEncryption.DecryptStream(lib, data, storage.plain);
    }

    method EncryptDto(fields: seq<Field>, secret: set<string>, columns: set<string>, args: EncryptionArgs,
                      nonces: nat -> Nonce) returns (r: Option<map<string, Column>>)
      requires keys.Valid()
      modifies keys`cache
      ensures keys.Valid()
      ensures r == WrittenObject(lib, keys.kms, keys.repo.rows, args, fields, secret, columns, nonces)
      ensures r.Some? <==> PlainKey(keys.kms, keys.repo.rows, Slot(args.org, Database), args.version).Some?
                           && PlainKey(keys.kms, keys.repo.rows, Slot(args.org, Search), args.version).Some?
                           && AllFit(fields, secret, columns)
      ensures r.Some? && NamesApart(fields, secret) ==> forall i :: 0 <= i < |fields| ==>
        StoredAs(lib, keys.kms, keys.repo.rows, args, secret, columns, r.value, fields[i], nonces(i))
    {
      var database := keys.GetDek(Slot(args.org, Database), Some(args.version));
      if !database.Key? { return None; }
      var search := keys.GetDek(Slot(args.org, Search), Some(args.version));
      if !search.Key? { return None; }
      var kwargs: map<string, Column> := map[];
      for i := 0 to |fields|
        invariant keys.Valid()
        invariant kwargs == Kwargs(lib, fields[..i], secret, columns, database.plain, database.version, search.plain,
                                   nonces)
      {
        KwargsNext(lib, fields, secret, columns, database.plain, database.version, search.plain, nonces, i);
        var f := fields[i];
        if f.name in secret && f.value.Some? {
          var needsToken := TokenName(f.name) in columns;
          var sealed := EncryptField(lib, f.value.value, database.plain, database.version,
                                     if needsToken then Some(search.plain) else None, nonces(i));
          kwargs := kwargs[f.name := Sealed(sealed)];
          if needsToken {
            kwargs := kwargs[TokenName(f.name) := Text(sealed.token.value)];
          }
        } else if f.name in columns {
          kwargs := kwargs[f.name := Plain(f.value)];
        }
      }
      assert fields[..|fields|] == fields;
      r := if kwargs.Keys <= columns then Some(kwargs) else None;
      KwargsFit(lib, fields, secret, columns, database.plain, database.version, search.plain, nonces);
      if r.Some? && NamesApart(fields, secret) {
        AllStored(lib, keys.kms, keys.repo.rows, args, fields, secret, columns, nonces);
      }
    }

    /** `create_search_token`. */
    method CreateSearchToken(value: string, args: EncryptionArgs) returns (r: Option<string>)
      requires keys.Valid()
      modifies keys`cache
      ensures keys.Valid()
      ensures r == SearchTokenFor(lib, keys.kms, keys.repo.rows, args, value)
      ensures var search := PlainKey(keys.kms, keys.repo.rows, Slot(args.org, Search), args.version);
        r == if search.Some? then Some(Hex(lib.hmac(search.value, lib.utf8(lib.lower(value))))) else None
    {
      var search := keys.GetDek(Slot(args.org, Search), Some(args.version));
      if !search.Key? { return None; }
      return Some(SearchToken(lib, value, search.plain));
    }

    method DecryptModel(row: map<string, Column>, names: seq<string>, secret: set<string>, args: EncryptionArgs)
      returns (r: Option<map<string, Column>>)
      requires keys.Valid()
      modifies keys`cache
      ensures keys.Valid()
      ensures r.Some? <==> forall i :: 0 <= i < |names| ==>
        ReadColumn(lib, keys.kms, keys.repo.rows, args.org, row, secret, names[i]).Some?
      ensures r.Some? ==> forall i :: 0 <= i < |names| ==>
        names[i] in r.value
        && ReadColumn(lib, keys.kms, keys.repo.rows, args.org, row, secret, names[i]) == Some(r.value[names[i]])
    {
      var kwargs: map<string, Column> := map[];
      for i := 0 to |names|
        invariant keys.Valid()
        invariant forall j :: 0 <= j < i ==>
          names[j] in kwargs
          && ReadColumn(lib, keys.kms, keys.repo.rows, args.org, row, secret, names[j]) == Some(kwargs[names[j]])
      {
        var name := names[i];
        var raw := if name in row then row[name] else Null;
        if name in secret {
          if raw.Sealed? || raw.Dictionary? {
            var field := if raw.Sealed? then Some(raw.field) else raw.fields;
            if field.None? { return None; }
            var text := DecryptValue(field.value, args);
            if text.None? { return None; }
            raw := Text(text.value);
          } else if raw.Binary? {
            raw := if |raw.bytes| == 0 then Null else Text(lib.lossy(raw.bytes));
          } else if raw.Other? {
            raw := Null;
          }
        }
        kwargs := kwargs[name := raw];
      }
      return Some(kwargs);
    }
  }

  // ---- What was written stays readable ----

  /** A version that resolves keeps its key through every run. */
  lemma {:induction false} ResolvedLasts(kms: Kms, rows: seq<KeyRow>, steps: seq<KeyRuns.Step>, slot: Slot,
                                         version: nat)
    requires Faithful(kms) && Ordered(rows) && Readable(kms, rows)
    requires Resolved(kms, rows, slot, Some(version)).Key?
    ensures Resolved(kms, KeyRuns.Run(kms, rows, steps), slot, Some(version))
            == Resolved(kms, rows, slot, Some(version))
    ensures Resolved(kms, rows, slot, Some(version)).version == version
    ensures |Resolved(kms, rows, slot, Some(version)).plain| == 32
  {
    var after := KeyRuns.Run(kms, rows, steps);
    KeyRuns.RunKeepsKeys(kms, rows, steps);
    assert IsHistory(RowsOf(rows, slot)) && IsHistory(RowsOf(after, slot));
    KeyRuns.ResolvedExactlyWhenStored(kms, rows, slot, version);
    KeyRuns.ResolvedExactlyWhenStored(kms, after, slot, version);
    assert KeyLasts(kms, rows, after, slot, version);
  }

  /** A value once written can be read after any initialisations and rotations. */
  lemma {:induction false} ValueSurvives(lib: Library, kms: Kms, rows: seq<KeyRow>, steps: seq<KeyRuns.Step>,
                                         args: EncryptionArgs,
                      value: string, searchable: bool, nonce: Nonce)
    requires Sound(lib) && Faithful(kms) && Ordered(rows) && Readable(kms, rows)
    ensures match WrittenValue(lib, kms, rows, args, value, searchable, nonce)
            case None => true
            case Some(field) => ReadValue(lib, kms, KeyRuns.Run(kms, rows, steps), args.org, field) == Some(value)
  {
    if WrittenValue(lib, kms, rows, args, value, searchable, nonce).None? {
      return;
    }
    var key := Resolved(kms, rows, Slot(args.org, Database), Some(args.version));
    ResolvedLasts(kms, rows, steps, Slot(args.org, Database), args.version);
    FieldRoundTrip(lib, value, key.plain, key.version, None, nonce);
    if searchable {
      var searchKey := Resolved(kms, rows, Slot(args.org, Search), Some(args.version)).plain;
      FieldRoundTrip(lib, value, key.plain, key.version, Some(searchKey), nonce);
    }
  }

  /** So can a stream, whatever version is current when it is read. */
  lemma {:induction false} StreamSurvives(lib: Library, kms: Kms, rows: seq<KeyRow>, steps: seq<KeyRuns.Step>,
                                          args: EncryptionArgs,
                       data: Bytes, nonce: Nonce, later: EncryptionArgs)
    requires Sound(lib) && Faithful(kms) && Ordered(rows) && Readable(kms, rows) && later.org == args.org
    ensures match WrittenStream(lib, kms, rows, args, data, nonce)
            case None => true
            case Some(stream) => ReadStream(lib, kms, KeyRuns.Run(kms, rows, steps), later, stream) == Some(data)
  {
    if WrittenStream(lib, kms, rows, args, data, nonce).None? {
      return;
    }
    var key := Resolved(kms, rows, Slot(args.org, Storage), Some(args.version));
    ResolvedLasts(kms, rows, steps, Slot(args.org, Storage), args.version);
    StreamRoundTrip(lib, data, key.plain, key.version, nonce, later.version);
  }

  /** Field names differ from each other and from the token columns of encrypted fields. */
  predicate NamesApart(fields: seq<Field>, secret: set<string>) {
    && (forall i, j :: 0 <= i < j < |fields| ==> fields[i].name != fields[j].name)
    && (forall i, j :: 0 <= i < |fields| && 0 <= j < |fields| && fields[i].name in secret ==>
          TokenName(fields[i].name) != fields[j].name)
  }

  lemma {:induction false} WithFieldElsewhere(lib: Library, kwargs: map<string, Column>, f: Field, secret: set<string>,
                                              columns: set<string>,
                           key: Bytes, version: nat, searchKey: Bytes, nonce: Nonce, name: string)
    requires f.name != name && (f.name in secret ==> TokenName(f.name) != name)
    ensures var after := WithField(lib, kwargs, f, secret, columns, key, version, searchKey, nonce);
      (name in after <==> name in kwargs) && (name in kwargs ==> after[name] == kwargs[name])
  {
  }

  /** A field to be encrypted has a column, unless there is nothing in it. */
  predicate Fits(f: Field, secret: set<string>, columns: set<string>) {
    f.name in secret && f.value.Some? ==> f.name in columns
  }

  predicate AllFit(fields: seq<Field>, secret: set<string>, columns: set<string>) {
    forall i :: 0 <= i < |fields| ==> Fits(fields[i], secret, columns)
  }

  lemma {:induction false} AllFitLast(fields: seq<Field>, secret: set<string>, columns: set<string>)
    requires |fields| > 0
    ensures AllFit(fields, secret, columns)
            <==> AllFit(fields[..|fields| - 1], secret, columns) && Fits(fields[|fields| - 1], secret, columns)
  {
  }

  lemma {:induction false} WithFieldFits(lib: Library, kwargs: map<string, Column>, f: Field, secret: set<string>,
                                         columns: set<string>,
                      key: Bytes, version: nat, searchKey: Bytes, nonce: Nonce)
    ensures WithField(lib, kwargs, f, secret, columns, key, version, searchKey, nonce).Keys <= columns
            <==> kwargs.Keys <= columns && Fits(f, secret, columns)
  {
    var after := WithField(lib, kwargs, f, secret, columns, key, version, searchKey, nonce);
    if f.name in secret && f.value.Some? {
      assert after.Keys == kwargs.Keys + {f.name} + if TokenName(f.name) in columns then {TokenName(f.name)} else {};
    } else {
      assert after.Keys == kwargs.Keys + if f.name in columns then {f.name} else {};
    }
  }

  /** What the arguments hold under the name of a field. */
  lemma {:induction false} KwargsAt(lib: Library, fields: seq<Field>, secret: set<string>, columns: set<string>,
                                    key: Bytes, version: nat, searchKey: Bytes, nonces: nat -> Nonce, i: nat)
    requires i < |fields| && NamesApart(fields, secret)
    ensures var kwargs := Kwargs(lib, fields, secret, columns, key, version, searchKey, nonces);
      var f := fields[i];
      if f.name in secret && f.value.Some? then
        f.name in kwargs
        && kwargs[f.name] == Sealed(EncryptField(lib, f.value.value, key, version,
                                                 if TokenName(f.name) in columns then Some(searchKey)
                                                   else None, nonces(i)))
      else if f.name in columns then f.name in kwargs && kwargs[f.name] == Plain(f.value)
      else f.name !in kwargs
  {
    var n := |fields| - 1;
    if i < n {
      KwargsAt(lib, fields[..n], secret, columns, key, version, searchKey, nonces, i);
      WithFieldElsewhere(lib, Kwargs(lib, fields[..n], secret, columns, key, version, searchKey, nonces), fields[n],
                         secret, columns, key, version, searchKey, nonces(n), fields[i].name);
    } else {
      NotYet(lib, fields[..n], secret, columns, key, version, searchKey, nonces, fields[n].name);
    }
  }

  /** The token column of a field that is encrypted, where the class has one. */
  predicate HasToken(kwargs: map<string, Column>, lib: Library, f: Field, searchKey: Bytes)
    requires f.value.Some?
  {
    && f.name + "_search_token" in kwargs
    && kwargs[f.name + "_search_token"] == Text(Hex(lib.hmac(searchKey, lib.utf8(lib.lower(f.value.value)))))
  }

  lemma {:induction false} NameBeforeSuffix(name: string)
    ensures |TokenName(name)| == |name| + 13 && TokenName(name)[..|name|] == name
  {
  }

  lemma {:induction false} TokenNamesDiffer(a: string, b: string)
    requires a != b
    ensures TokenName(a) != TokenName(b)
  {
    NameBeforeSuffix(a);
    NameBeforeSuffix(b);
  }

  lemma {:induction false} WithFieldToken(lib: Library, kwargs: map<string, Column>, f: Field, secret: set<string>,
                                          columns: set<string>, key: Bytes, version: nat, searchKey: Bytes,
                                          nonce: Nonce)
    requires f.name in secret && f.value.Some? && TokenName(f.name) in columns
    ensures HasToken(WithField(lib, kwargs, f, secret, columns, key, version, searchKey, nonce), lib, f, searchKey)
  {
  }

  /** Another field overwrites neither the column nor the token of a field. */
  lemma {:induction false} TokenStays(lib: Library, kwargs: map<string, Column>, f: Field, other: Field,
                                      secret: set<string>, columns: set<string>, key: Bytes, version: nat,
                                      searchKey: Bytes, nonce: Nonce)
    requires f.value.Some? && f.name in secret && HasToken(kwargs, lib, f, searchKey)
    requires f.name != other.name && TokenName(f.name) != other.name
    ensures HasToken(WithField(lib, kwargs, other, secret, columns, key, version, searchKey, nonce), lib, f, searchKey)
  {
    TokenNamesDiffer(f.name, other.name);
    WithFieldElsewhere(lib, kwargs, other, secret, columns, key, version, searchKey, nonce, TokenName(f.name));
  }

  /** The token column holds the hexadecimal of the keyed hash of the text in lower case. */
  lemma {:induction false} TokenAt(lib: Library, fields: seq<Field>, secret: set<string>, columns: set<string>,
                                   key: Bytes, version: nat, searchKey: Bytes, nonces: nat -> Nonce, i: nat)
    requires i < |fields| && NamesApart(fields, secret)
    requires fields[i].name in secret && fields[i].value.Some? && TokenName(fields[i].name) in columns
    ensures HasToken(Kwargs(lib, fields, secret, columns, key, version, searchKey, nonces), lib, fields[i], searchKey)
  {
    var n := |fields| - 1;
    var before := Kwargs(lib, fields[..n], secret, columns, key, version, searchKey, nonces);
    if i < n {
      TokenAt(lib, fields[..n], secret, columns, key, version, searchKey, nonces, i);
      TokenStays(lib, before, fields[i], fields[n], secret, columns, key, version, searchKey, nonces(n));
    } else {
      WithFieldToken(lib, before, fields[n], secret, columns, key, version, searchKey, nonces(n));
    }
  }

  /** What a row holds for a field: its text sealed with the DATABASE key of the version, and the token of
      the SEARCH key of that version if the class has a column for it; or a copy, or nothing. */
  predicate StoredAs(lib: Library, kms: Kms, rows: seq<KeyRow>, args: EncryptionArgs, secret: set<string>,
                     columns: set<string>, row: map<string, Column>, f: Field, nonce: Nonce) {
    if f.name in secret && f.value.Some? then
      var database := PlainKey(kms, rows, Slot(args.org, Database), args.version);
      var search := PlainKey(kms, rows, Slot(args.org, Search), args.version);
      var wanted := f.name + "_search_token" in columns;
      && database.Some? && search.Some? && f.name in row
      && row[f.name] == Sealed(EncryptField(lib, f.value.value, database.value, args.version,
                                            if wanted then search else None, nonce))
      && (wanted ==> HasToken(row, lib, f, search.value))
    else if f.name in columns then
      f.name in row && row[f.name] == if f.value.Some? then Text(f.value.value) else Null
    else f.name !in row
  }

  lemma {:induction false} AllStored(lib: Library, kms: Kms, rows: seq<KeyRow>, args: EncryptionArgs,
                                     fields: seq<Field>, secret: set<string>, columns: set<string>,
                                     nonces: nat -> Nonce)
    requires NamesApart(fields, secret)
    requires WrittenObject(lib, kms, rows, args, fields, secret, columns, nonces).Some?
    ensures var row := WrittenObject(lib, kms, rows, args, fields, secret, columns, nonces).value;
      forall i :: 0 <= i < |fields| ==>
        StoredAs(lib, kms, rows, args, secret, columns, row, fields[i], nonces(i))
  {
    var row := WrittenObject(lib, kms, rows, args, fields, secret, columns, nonces).value;
    var key := PlainKey(kms, rows, Slot(args.org, Database), args.version).value;
    var searchKey := PlainKey(kms, rows, Slot(args.org, Search), args.version).value;
    forall i | 0 <= i < |fields|
      ensures StoredAs(lib, kms, rows, args, secret, columns, row, fields[i], nonces(i))
    {
      KwargsAt(lib, fields, secret, columns, key, args.version, searchKey, nonces, i);
      if fields[i].name in secret && fields[i].value.Some? && TokenName(fields[i].name) in columns {
        TokenAt(lib, fields, secret, columns, key, args.version, searchKey, nonces, i);
      }
    }
  }

  lemma {:induction false} NotYet(lib: Library, fields: seq<Field>, secret: set<string>, columns: set<string>,
                                  key: Bytes, version: nat, searchKey: Bytes, nonces: nat -> Nonce, name: string)
    requires forall i :: 0 <= i < |fields| ==>
      fields[i].name != name && (fields[i].name in secret ==> TokenName(fields[i].name) != name)
    ensures name !in Kwargs(lib, fields, secret, columns, key, version, searchKey, nonces)
  {
    if |fields| > 0 {
      var n := |fields| - 1;
      NotYet(lib, fields[..n], secret, columns, key, version, searchKey, nonces, name);
      WithFieldElsewhere(lib, Kwargs(lib, fields[..n], secret, columns, key, version, searchKey, nonces), fields[n],
                         secret, columns, key, version, searchKey, nonces(n), name);
    }
  }

  /** An object written and read back after any run has each of its fields again, exactly when the
      encrypted class has a column for it or there was nothing in it. */
  lemma {:induction false} ObjectSurvivesExactlyWhen(lib: Library, kms: Kms, rows: seq<KeyRow>,
                                                     steps: seq<KeyRuns.Step>, args: EncryptionArgs,
                                  fields: seq<Field>, secret: set<string>, columns: set<string>, nonces: nat -> Nonce,
                                  i: nat)
    requires Sound(lib) && Faithful(kms) && Ordered(rows) && Readable(kms, rows)
    requires NamesApart(fields, secret) && i < |fields|
    requires WrittenObject(lib, kms, rows, args, fields, secret, columns, nonces).Some?
    ensures var row := WrittenObject(lib, kms, rows, args, fields, secret, columns, nonces).value;
      ReadColumn(lib, kms, KeyRuns.Run(kms, rows, steps), args.org, row, secret, fields[i].name)
        == Some(Plain(fields[i].value))
      <==> fields[i].name in columns || fields[i].value.None?
  {
    var key := Resolved(kms, rows, Slot(args.org, Database), Some(args.version));
    var searchKey := Resolved(kms, rows, Slot(args.org, Search), Some(args.version)).plain;
    var f := fields[i];
    ResolvedLasts(kms, rows, steps, Slot(args.org, Database), args.version);
    KwargsAt(lib, fields, secret, columns, key.plain, key.version, searchKey, nonces, i);
    if f.name in secret && f.value.Some? {
      FieldRoundTrip(lib, f.value.value, key.plain, key.version,
                     if TokenName(f.name) in columns then Some(searchKey) else None, nonces(i));
    }
  }

  lemma {:induction false} KwargsFit(lib: Library, fields: seq<Field>, secret: set<string>, columns: set<string>,
                                     key: Bytes, version: nat, searchKey: Bytes, nonces: nat -> Nonce)
    ensures Kwargs(lib, fields, secret, columns, key, version, searchKey, nonces).Keys <= columns
            <==> AllFit(fields, secret, columns)
  {
    if |fields| > 0 {
      var n := |fields| - 1;
      KwargsFit(lib, fields[..n], secret, columns, key, version, searchKey, nonces);
      AllFitLast(fields, secret, columns);
      WithFieldFits(lib, Kwargs(lib, fields[..n], secret, columns, key, version, searchKey, nonces), fields[n],
                    secret, columns, key, version, searchKey, nonces(n));
    }
  }

  /** After an organisation is initialised and any run follows, an object can be written exactly when
      DATABASE and SEARCH have both been rotated at least as often as STORAGE, and every encrypted
      field with a value has a column. */
  lemma {:induction false} ObjectIsWrittenExactlyWhen(lib: Library, kms: Kms, rows: seq<KeyRow>, org: Option<Id>,
                                                      random: Random,
                                   steps: seq<KeyRuns.Step>, wrapped: map<Purpose, Bytes>, fields: seq<Field>,
                                   secret: set<string>, columns: set<string>, nonces: nat -> Nonce)
    requires Faithful(kms) && Ordered(rows) && Readable(kms, rows)
    requires forall p :: Latest(rows, Slot(org, p)) == 0
    ensures var after := KeyRuns.Run(kms, KeyRuns.Apply(kms, rows, KeyRuns.Init(org, random)), steps);
      var args := EncryptionArgs(org, wrapped, Latest(after, Slot(org, Storage)));
      var storage := KeyRuns.Rotations(steps, Slot(org, Storage));
      WrittenObject(lib, kms, after, args, fields, secret, columns, nonces).Some?
      <==> storage <= KeyRuns.Rotations(steps, Slot(org, Database))
           && storage <= KeyRuns.Rotations(steps, Slot(org, Search))
           && AllFit(fields, secret, columns)
  {
    var after := KeyRuns.Run(kms, KeyRuns.Apply(kms, rows, KeyRuns.Init(org, random)), steps);
    KeyRuns.WritesUseTheActiveKeyExactlyWhen(kms, rows, org, random, steps, Database);
    KeyRuns.WritesUseTheActiveKeyExactlyWhen(kms, rows, org, random, steps, Search);
    var database, search := KeyRuns.WriteKey(kms, after, org, Database), KeyRuns.WriteKey(kms, after, org, Search);
    if database.Key? && search.Key? {
      KwargsFit(lib, fields, secret, columns, database.plain, database.version, search.plain, nonces);
    }
  }
}
