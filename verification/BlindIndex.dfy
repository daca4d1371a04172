/** Searching rows by the blind index of an encrypted column: the tokens of
    backend/app/service/encryption_mapper_service.py, looked up as in
    backend/app/repository/ballot_token_repo.py. */
module BlindIndex {
  import opened Ballots
  import opened KeyManagement
  import opened KeysManager
  import opened FieldEncryption
  import opened EncryptionMapper
  import KeyRuns

  /** The look-up by `text` in the token column of `name`, with the keys stored in `rows`, finds the row. */
  predicate Finds(lib: Library, kms: Kms, rows: seq<KeyRow>, args: EncryptionArgs, text: string,
                  row: map<string, Column>, name: string) {
    var token := SearchTokenFor(lib, kms, rows, args, text);
    token.Some? && TokenName(name) in row && row[TokenName(name)] == Text(token.value)
  }

  /** A row written for a field that is encrypted and has a token column. */
  ghost predicate IsIndexed(lib: Library, kms: Kms, rows: seq<KeyRow>, args: EncryptionArgs, fields: seq<Field>,
                            secret: set<string>, columns: set<string>, nonces: nat -> Nonce, i: nat) {
    && i < |fields| && NamesApart(fields, secret)
    && fields[i].name in secret && fields[i].value.Some? && TokenName(fields[i].name) in columns
    && WrittenObject(lib, kms, rows, args, fields, secret, columns, nonces).Some?
  }

  /** After any run a row is found by a text exactly when this has the lower-case form of the text
      stored and the search takes the very key the row was indexed with. */
  lemma {:induction false} SearchFindsExactlyWhen(lib: Library, kms: Kms, rows: seq<KeyRow>, steps: seq<KeyRuns.Step>,
                                                  args: EncryptionArgs, fields: seq<Field>, secret: set<string>,
                                                  columns: set<string>, nonces: nat -> Nonce, i: nat,
                                                  later: EncryptionArgs, text: string)
    requires Sound(lib) && CollisionFree(lib)
    requires IsIndexed(lib, kms, rows, args, fields, secret, columns, nonces, i)
    ensures var row := WrittenObject(lib, kms, rows, args, fields, secret, columns, nonces).value;
      var after := KeyRuns.Run(kms, rows, steps);
      Finds(lib, kms, after, later, text, row, fields[i].name)
      <==> lib.lower(text) == lib.lower(fields[i].value.value)
           && PlainKey(kms, after, Slot(later.org, Search), later.version)
              == PlainKey(kms, rows, Slot(args.org, Search), args.version)
  {
    AllStored(lib, kms, rows, args, fields, secret, columns, nonces);
    var f, row := fields[i], WrittenObject(lib, kms, rows, args, fields, secret, columns, nonces).value;
    assert StoredAs(lib, kms, rows, args, secret, columns, row, f, nonces(i));
    var mine := PlainKey(kms, KeyRuns.Run(kms, rows, steps), Slot(later.org, Search), later.version);
    if mine.Some? {
      TokensAreEqualExactlyWhen(lib, text, mine.value, f.value.value,
                                PlainKey(kms, rows, Slot(args.org, Search), args.version).value);
    }
  }

  /** No key is generated twice for a slot. */
  ghost predicate KeysDiffer(kms: Kms, rows: seq<KeyRow>, slot: Slot) {
    forall v, w :: 1 <= v < w <= Latest(rows, slot) ==> PlainKey(kms, rows, slot, v) != PlainKey(kms, rows, slot, w)
  }

  /** The SEARCH key of a version outlasts any run, and no later version has it. */
  lemma {:induction false} OnlyItsOwnVersion(kms: Kms, rows: seq<KeyRow>, steps: seq<KeyRuns.Step>, slot: Slot,
                                             version: nat, later: nat)
    requires Faithful(kms) && Ordered(rows) && Readable(kms, rows)
    requires PlainKey(kms, rows, slot, version).Some? && version <= later
    requires KeysDiffer(kms, KeyRuns.Run(kms, rows, steps), slot)
    ensures PlainKey(kms, KeyRuns.Run(kms, rows, steps), slot, later) == PlainKey(kms, rows, slot, version)
            <==> later == version
  {
    KeyRuns.RunKeepsKeys(kms, rows, steps);
    assert KeyLasts(kms, rows, KeyRuns.Run(kms, rows, steps), slot, version);
  }

  /** The version reported is the one a row was written with as long as STORAGE is not rotated. */
  lemma {:induction false} VersionStays(kms: Kms, rows: seq<KeyRow>, steps: seq<KeyRuns.Step>, slot: Slot)
    requires Faithful(kms) && Latest(rows, slot) > 0
    ensures Latest(rows, slot) <= Latest(KeyRuns.Run(kms, rows, steps), slot)
    ensures Latest(KeyRuns.Run(kms, rows, steps), slot) == Latest(rows, slot) <==> KeyRuns.Rotations(steps, slot) == 0
  {
    KeyRuns.VersionsCountRotations(kms, rows, steps, slot);
  }

  /** The key that a row was indexed with is there. */
  lemma {:induction false} IndexedWithAKey(lib: Library, kms: Kms, rows: seq<KeyRow>, args: EncryptionArgs,
                                           fields: seq<Field>, secret: set<string>, columns: set<string>,
                                           nonces: nat -> Nonce, i: nat)
    requires IsIndexed(lib, kms, rows, args, fields, secret, columns, nonces, i)
    ensures PlainKey(kms, rows, Slot(args.org, Search), args.version).Some? && args.version > 0
  {
  }

  /** Rows are written and searched for with the version of STORAGE. A row is found by the texts with the
      lower-case form of its own as long as STORAGE is not rotated, and by no text afterwards. */
  lemma {:induction false} FoundUntilStorageIsRotated(lib: Library, kms: Kms, rows: seq<KeyRow>,
                                                      steps: seq<KeyRuns.Step>, args: EncryptionArgs,
                                                      fields: seq<Field>, secret: set<string>, columns: set<string>,
                                                      nonces: nat -> Nonce, i: nat, later: EncryptionArgs, text: string)
    requires Sound(lib) && CollisionFree(lib) && Faithful(kms) && Ordered(rows) && Readable(kms, rows)
    requires IsIndexed(lib, kms, rows, args, fields, secret, columns, nonces, i)
    requires args.version == Latest(rows, Slot(args.org, Storage)) && later.org == args.org
    requires later.version == Latest(KeyRuns.Run(kms, rows, steps), Slot(args.org, Storage))
    requires KeysDiffer(kms, KeyRuns.Run(kms, rows, steps), Slot(args.org, Search))
    ensures Finds(lib, kms, KeyRuns.Run(kms, rows, steps), later, text,
                  WrittenObject(lib, kms, rows, args, fields, secret, columns, nonces).value, fields[i].name)
            <==> lib.lower(text) == lib.lower(fields[i].value.value)
                 && KeyRuns.Rotations(steps, Slot(args.org, Storage)) == 0
  {
    SearchFindsExactlyWhen(lib, kms, rows, steps, args, fields, secret, columns, nonces, i, later, text);
    IndexedWithAKey(lib, kms, rows, args, fields, secret, columns, nonces, i);
    VersionStays(kms, rows, steps, Slot(args.org, Storage));
    OnlyItsOwnVersion(kms, rows, steps, Slot(args.org, Search), args.version, later.version);
  }
}
