/** The key rows as a repository keeps them (backend/app/repository/keys_manager_repo.py) and the
    service over it, with its cache of plain keys (backend/app/service/keys_manager_service.py). */
module KeysManager {
  import opened Ballots
  import opened KeyManagement

  lemma {:induction false} InHistory(rows: seq<KeyRow>, slot: Slot, row: KeyRow)
    ensures row in RowsOf(rows, slot) <==> row in rows && row.slot == slot
  {
    if |rows| > 0 {
      InHistory(rows[..|rows| - 1], slot, row);
      assert rows == rows[..|rows| - 1] + [rows[|rows| - 1]];
    }
  }

  /** Every row of a slot is in its history, and its version says where. */
  lemma {:induction false} WhereInHistory(rows: seq<KeyRow>, slot: Slot)
    requires Numbered(rows, slot)
    ensures forall row :: row in rows && row.slot == slot ==>
      1 <= row.version <= Latest(rows, slot) && row == RowsOf(rows, slot)[row.version - 1]
    ensures forall i :: 0 <= i < Latest(rows, slot) ==>
      RowsOf(rows, slot)[i] in rows && RowsOf(rows, slot)[i].slot == slot
  {
    var history := RowsOf(rows, slot);
    forall row | row in rows && row.slot == slot
      ensures 1 <= row.version <= |history| && row == history[row.version - 1]
    {
      InHistory(rows, slot, row);
      var i :| 0 <= i < |history| && history[i] == row;
    }
    forall i | 0 <= i < |history| ensures history[i] in rows && history[i].slot == slot {
      InHistory(rows, slot, history[i]);
    }
  }

  ghost predicate Repeated(rows: seq<KeyRow>, slot: Slot, version: nat) {
    exists i, j :: 0 <= i < j < |rows| && rows[i].slot == rows[j].slot == slot
      && rows[i].version == rows[j].version == version
  }

  lemma {:induction false} HistoryGrows(rows: seq<KeyRow>, slot: Slot, n: nat)
    requires n <= |rows|
    ensures RowsOf(rows[..n], slot) <= RowsOf(rows, slot)
  {
    if n == |rows| {
      assert rows[..n] == rows;
    } else {
      HistoryGrows(rows[..|rows| - 1], slot, n);
      assert rows[..|rows| - 1][..n] == rows[..n];
    }
  }

  /** No version of a slot is stored twice. */
  lemma {:induction false} NeverRepeated(rows: seq<KeyRow>, slot: Slot, version: nat)
    requires Numbered(rows, slot)
    ensures !Repeated(rows, slot, version)
  {
    forall i, j | 0 <= i < j < |rows| && rows[i].slot == rows[j].slot == slot ensures rows[i].version != rows[j].version
    {
      InHistory(rows[..j], slot, rows[i]);
      assert rows[i] == rows[..j][i];
      var k :| 0 <= k < Latest(rows[..j], slot) && RowsOf(rows[..j], slot)[k] == rows[i];
      assert rows[..j + 1][..j] == rows[..j];
      HistoryGrows(rows, slot, j);
      HistoryGrows(rows, slot, j + 1);
      assert RowsOf(rows, slot)[Latest(rows[..j], slot)] == rows[j];
    }
  }

  datatype Lookup = NoRow | OneRow(row: KeyRow) | SeveralRows

  /** What the rows hold for a version of a slot: none, exactly one, or several. */
  ghost predicate Finds(rows: seq<KeyRow>, slot: Slot, version: nat, found: Lookup) {
    match found
    case NoRow => forall row :: row in rows && row.slot == slot ==> row.version != version
    case OneRow(row) => row in rows && row.slot == slot && row.version == version && !Repeated(rows, slot, version)
    case SeveralRows => Repeated(rows, slot, version)
  }

  lemma {:induction false} FindsNext(rows: seq<KeyRow>, slot: Slot, version: nat, found: Lookup, row: KeyRow)
    requires Finds(rows, slot, version, found)
    ensures Finds(rows + [row], slot, version,
                  if row.slot != slot || row.version != version then found
                  else if found.NoRow? then OneRow(row) else SeveralRows)
  {
    var more := rows + [row];
    if Repeated(rows, slot, version) {
      var i, j :| 0 <= i < j < |rows| && rows[i].slot == rows[j].slot == slot
        && rows[i].version == rows[j].version == version;
      assert more[i] == rows[i] && more[j] == rows[j];
    } else if found.OneRow? && row.slot == slot && row.version == version {
      var i :| 0 <= i < |rows| && rows[i] == found.row;
      assert more[i] == rows[i] && more[|rows|] == row;
    }
  }

  class KeysRepository {
    var rows: seq<KeyRow>

    constructor ()
      ensures rows == []
    {
      rows := [];
    }

    method Create(row: KeyRow)
      modifies this
      ensures rows == old(rows) + [row]
    {
      rows := rows + [row];
    }

    /** The active row with the highest version. */
    method GetActive(slot: Slot) returns (found: Option<KeyRow>)
      ensures found.Some? <==> exists row :: row in rows && row.slot == slot && row.active
      ensures found.Some? ==> found.value in rows && found.value.slot == slot && found.value.active
      ensures forall row :: row in rows && row.slot == slot && row.active ==> row.version <= found.value.version
      ensures Ordered(rows) ==>
        found == if Latest(rows, slot) == 0 then None else Some(Newest(rows, slot))
      ensures Ordered(rows) && found.Some? ==> found.value.version == Latest(rows, slot)
    {
      found := None;
      for i := 0 to |rows|
        invariant found.Some? ==> found.value in rows[..i] && found.value.slot == slot && found.value.active
        invariant forall row :: row in rows[..i] && row.slot == slot && row.active ==>
          found.Some? && row.version <= found.value.version
      {
        var row := rows[i];
        assert rows[..i + 1] == rows[..i] + [row];
        if row.slot == slot && row.active && (found.None? || row.version > found.value.version) {
          found := Some(row);
        }
      }
      assert rows[..|rows|] == rows;
      if Ordered(rows) {
        assert IsHistory(RowsOf(rows, slot));
        WhereInHistory(rows, slot);
      }
    }

    method GetByVersion(slot: Slot, version: nat) returns (found: Lookup)
      ensures Finds(rows, slot, version, found)
      ensures found.NoRow? <==> forall row :: row in rows && row.slot == slot ==> row.version != version
    {
      found := NoRow;
      for i := 0 to |rows|
        invariant Finds(rows[..i], slot, version, found)
      {
        var row := rows[i];
        assert rows[..i + 1] == rows[..i] + [row];
        FindsNext(rows[..i], slot, version, found, row);
        if row.slot == slot && row.version == version {
          found := if found.NoRow? then OneRow(row) else SeveralRows;
        }
      }
      assert rows[..|rows|] == rows;
    }

    method DeactivateAll(slot: Slot)
      modifies this
      ensures rows == Deactivated(old(rows), slot)
    {
      DeactivatedAt(rows, slot);
      for i := 0 to |rows|
        invariant |rows| == |old(rows)|
        invariant forall j :: 0 <= j < |rows| ==> rows[j] == if j < i then Off(old(rows)[j], slot) else old(rows)[j]
      {
        if rows[i].slot == slot {
          rows := rows[i := rows[i].(active := false)];
        }
      }
    }

    /** One more than the highest version. */
    method NextVersion(slot: Slot) returns (next: nat)
      ensures forall row :: row in rows && row.slot == slot ==> row.version < next
      ensures next == 1 || exists row :: row in rows && row.slot == slot && row.version + 1 == next
    {
      var highest: nat := 0;
      for i := 0 to |rows|
        invariant forall row :: row in rows[..i] && row.slot == slot ==> row.version <= highest
        invariant highest == 0 || exists row :: row in rows[..i] && row.slot == slot && row.version == highest
      {
        assert rows[..i + 1] == rows[..i] + [rows[i]];
        if rows[i].slot == slot && rows[i].version > highest {
          highest := rows[i].version;
        }
      }
      assert rows[..|rows|] == rows;
      next := highest + 1;
    }
  }

  // ---- The service ----

  datatype Version = Version(slot: Slot, number: nat)

  /** `get_dek` raises `KeyError` when there is no such key. */
  datatype Fetched = Key(plain: Bytes, version: nat) | KeyError | NotLatin1 | NotUnique

  /** Every cached key is what the stored row unwraps to. */
  ghost predicate Coherent(kms: Kms, rows: seq<KeyRow>, cache: map<Version, Bytes>) {
    forall v :: v in cache ==> PlainKey(kms, rows, v.slot, v.number) == Some(cache[v])
  }

  /** Other services may create and rotate keys meanwhile. */
  lemma {:induction false} CacheStaysCoherent(kms: Kms, before: seq<KeyRow>, after: seq<KeyRow>,
                                              cache: map<Version, Bytes>)
    requires Coherent(kms, before, cache) && KeysLast(kms, before, after)
    ensures Coherent(kms, after, cache)
  {
    forall v | v in cache ensures PlainKey(kms, after, v.slot, v.number) == Some(cache[v]) {
      assert KeyLasts(kms, before, after, v.slot, v.number);
    }
  }

  lemma {:induction false} CreatingKeepsCoherent(kms: Kms, rows: seq<KeyRow>, cache: map<Version, Bytes>, slot: Slot,
                                                 raw: Dek, seed: nat)
    requires Faithful(kms) && Ordered(rows) && Readable(kms, rows) && Coherent(kms, rows, cache)
             && Latest(rows, slot) == 0
    ensures var after := Created(kms, rows, slot, raw, seed);
      Ordered(after) && Readable(kms, after) && Coherent(kms, after, cache[Version(slot, 1) := raw])
  {
    InitialisingKeepsOrder(kms, rows, slot, raw, seed);
    CreatingKeepsKeys(kms, rows, slot, raw, seed);
    CacheStaysCoherent(kms, rows, Created(kms, rows, slot, raw, seed), cache);
  }

  lemma {:induction false} StoredKey(kms: Kms, rows: seq<KeyRow>, row: KeyRow)
    requires Numbered(rows, row.slot) && Readable(kms, rows) && row in rows
    ensures Unwraps(kms, row) && PlainKey(kms, rows, row.slot, row.version) == Encode(kms.decrypt(row.wrapped))
  {
    WhereInHistory(rows, row.slot);
  }

  lemma {:induction false} NoStoredKey(kms: Kms, rows: seq<KeyRow>, slot: Slot, version: nat)
    requires Numbered(rows, slot) && forall row :: row in rows && row.slot == slot ==> row.version != version
    ensures PlainKey(kms, rows, slot, version) == None
  {
    WhereInHistory(rows, slot);
    forall i | 0 <= i < Latest(rows, slot) ensures RowsOf(rows, slot)[i].version != version {
    }
  }

  /** What `get_dek` answers from the stored rows alone: the key of the version asked for, or else
      the latest one. */
  function Resolved(kms: Kms, rows: seq<KeyRow>, slot: Slot, version: Option<nat>): Fetched {
    var v := if version.Some? then version.value else Latest(rows, slot);
    match PlainKey(kms, rows, slot, v)
    case Some(plain) => Key(plain, v)
    case None => KeyError
  }

  /** `EncryptionArgs`: the wrapped key of each purpose, and one version for all of them. */
  datatype EncryptionArgs = EncryptionArgs(org: Option<Id>, wrapped: map<Purpose, Bytes>, version: nat)

  /** `result` holds the newest row of each of the first `n` purposes of an organisation. */
  ghost predicate NewestOf(rows: seq<KeyRow>, org: Option<Id>, n: nat, result: map<Purpose, KeyRow>)
    requires n <= |ALL_PURPOSES|
  {
    forall i :: 0 <= i < n ==>
      ALL_PURPOSES[i] in result && Latest(rows, Slot(org, ALL_PURPOSES[i])) > 0
      && result[ALL_PURPOSES[i]] == Newest(rows, Slot(org, ALL_PURPOSES[i]))
  }

  lemma {:induction false} NewestStays(rows: seq<KeyRow>, org: Option<Id>, n: nat, result: map<Purpose, KeyRow>,
                                       row: KeyRow)
    requires n < |ALL_PURPOSES| && NewestOf(rows, org, n, result) && row.slot == Slot(org, ALL_PURPOSES[n])
    ensures NewestOf(rows + [row], org, n + 1, result[ALL_PURPOSES[n] := row])
  {
    forall i | 0 <= i <= n
      ensures RowsOf(rows + [row], Slot(org, ALL_PURPOSES[i]))
              == RowsOf(rows, Slot(org, ALL_PURPOSES[i])) + if i == n then [row] else []
    {
      RowsOfAppend(rows, row, Slot(org, ALL_PURPOSES[i]));
    }
  }

  ghost predicate HasKeys(rows: seq<KeyRow>, org: Option<Id>, n: nat)
    requires n <= |ALL_PURPOSES|
  {
    forall i :: 0 <= i < n ==> Latest(rows, Slot(org, ALL_PURPOSES[i])) > 0
  }

  ghost predicate WrappedOf(rows: seq<KeyRow>, org: Option<Id>, n: nat, wrapped: map<Purpose, Bytes>)
    requires n <= |ALL_PURPOSES| && HasKeys(rows, org, n)
  {
    forall i :: 0 <= i < n ==>
      ALL_PURPOSES[i] in wrapped && wrapped[ALL_PURPOSES[i]] == Newest(rows, Slot(org, ALL_PURPOSES[i])).wrapped
  }

  lemma {:induction false} WrappedGrows(rows: seq<KeyRow>, org: Option<Id>, n: nat, wrapped: map<Purpose, Bytes>)
    requires n < |ALL_PURPOSES| && HasKeys(rows, org, n) && WrappedOf(rows, org, n, wrapped)
    requires Latest(rows, Slot(org, ALL_PURPOSES[n])) > 0
    ensures HasKeys(rows, org, n + 1)
    ensures WrappedOf(rows, org, n + 1, wrapped[ALL_PURPOSES[n] := Newest(rows, Slot(org, ALL_PURPOSES[n])).wrapped])
  {
  }

  class KeysManager {
    const kms: Kms
    const repo: KeysRepository
    var cache: map<Version, Bytes>

    ghost predicate Valid()
      reads this, repo
    {
      Faithful(kms) && Ordered(repo.rows) && Readable(kms, repo.rows) && Coherent(kms, repo.rows, cache)
    }

    constructor (kms: Kms, repo: KeysRepository)
      requires Faithful(kms) && Ordered(repo.rows) && Readable(kms, repo.rows)
      ensures Valid() && this.kms == kms && this.repo == repo && cache == map[]
    {
      this.kms := kms;
      this.repo := repo;
      cache := map[];
    }

    /** `_create_dek`. */
    method CreateDek(slot: Slot, raw: Dek, seed: nat) returns (row: KeyRow)
      requires Faithful(kms) && Numbered(repo.rows, slot)
      modifies this`cache, repo
      ensures repo.rows == Created(kms, old(repo.rows), slot, raw, seed)
      ensures row == repo.rows[|repo.rows| - 1]
      ensures row.version == Latest(old(repo.rows), slot) + 1
      ensures cache == old(cache)[Version(slot, row.version) := raw]
    {
      var wrapped := kms.encrypt(Decode(raw), seed);
      var next := repo.NextVersion(slot);
      WhereInHistory(repo.rows, slot);
      if Latest(repo.rows, slot) > 0 {
        assert RowsOf(repo.rows, slot)[Latest(repo.rows, slot) - 1].version < next;
      }
      row := KeyRow(slot, next, wrapped, true);
      repo.Create(row);
      cache := cache[Version(slot, next) := raw];
    }

    method CreateFirst(slot: Slot, raw: Dek, seed: nat) returns (row: KeyRow)
      requires Valid() && Latest(repo.rows, slot) == 0
      modifies this`cache, repo
      ensures Valid()
      ensures repo.rows == Created(kms, old(repo.rows), slot, raw, seed) == old(repo.rows) + [row]
      ensures row == KeyRow(slot, 1, kms.encrypt(Decode(raw), seed), true)
    {
      CreatingKeepsCoherent(kms, repo.rows, cache, slot, raw, seed);
      row := CreateDek(slot, raw, seed);
    }

    method InitOrgKeys(org: Option<Id>, random: Random) returns (result: map<Purpose, KeyRow>)
      requires Valid()
      modifies this`cache, repo
      ensures Valid()
      ensures repo.rows == InitialisedFor(kms, old(repo.rows), org, |ALL_PURPOSES|, random)
      ensures NewestOf(repo.rows, org, |ALL_PURPOSES|, result)
    {
      result := map[];
      for i := 0 to |ALL_PURPOSES|
        invariant Valid()
        invariant repo.rows == InitialisedFor(kms, old(repo.rows), org, i, random)
        invariant NewestOf(repo.rows, org, i, result)
      {
        var p := ALL_PURPOSES[i];
        var slot := Slot(org, p);
        var existing := repo.GetActive(slot);
        if existing.Some? {
          result := result[p := existing.value];
        } else {
          NewestStays(repo.rows, org, i, result,
                      KeyRow(slot, 1, kms.encrypt(Decode(random.raw(p)), random.seed(p)), true));
          var row := CreateFirst(slot, random.raw(p), random.seed(p));
          result := result[p := row];
        }
      }
    }

    /** Whether or not the key was cached, the answer is the one the stored rows give. */
    method GetDek(slot: Slot, version: Option<nat>) returns (fetched: Fetched)
      requires Valid()
      modifies this`cache
      ensures Valid()
      ensures fetched == Resolved(kms, repo.rows, slot, version)
    {
      var found: Lookup;
      if version.None? {
        var active := repo.GetActive(slot);
        found := if active.Some? then OneRow(active.value) else NoRow;
      } else {
        found := repo.GetByVersion(slot, version.value);
        NeverRepeated(repo.rows, slot, version.value);
      }
      match found
      case NoRow =>
        if version.Some? {
          NoStoredKey(kms, repo.rows, slot, version.value);
        }
        return KeyError;
      case SeveralRows => return NotUnique;
      case OneRow(row) =>
        StoredKey(kms, repo.rows, row);
        var key := Version(slot, row.version);
        if key !in cache {
          var plain := Encode(kms.decrypt(row.wrapped));
          if plain.None? {
            return NotLatin1;
          }
          cache := cache[key := plain.value];
        }
        return Key(cache[key], row.version);
    }

    /** The version reported is that of the last purpose. */
    method BuildEncryptionArgs(org: Option<Id>) returns (args: Option<EncryptionArgs>)
      requires Valid()
      ensures args.Some? <==> HasKeys(repo.rows, org, |ALL_PURPOSES|)
      ensures args.Some? ==> args.value.org == org && args.value.version == Latest(repo.rows, Slot(org, Storage))
      ensures args.Some? ==> WrappedOf(repo.rows, org, |ALL_PURPOSES|, args.value.wrapped)
    {
      var wrapped: map<Purpose, Bytes> := map[];
      var version := 1;
      for i := 0 to |ALL_PURPOSES|
        invariant HasKeys(repo.rows, org, i) && WrappedOf(repo.rows, org, i, wrapped)
        invariant i > 0 ==> version == Latest(repo.rows, Slot(org, ALL_PURPOSES[i - 1]))
      {
        var p := ALL_PURPOSES[i];
        var active := repo.GetActive(Slot(org, p));
        if active.None? {
          return None;
        }
        WrappedGrows(repo.rows, org, i, wrapped);
        wrapped := wrapped[p := active.value.wrapped];
        version := active.value.version;
      }
      return Some(EncryptionArgs(org, wrapped, version));
    }

    method RotateDek(slot: Slot, raw: Dek, seed: nat) returns (row: KeyRow)
      requires Valid()
      modifies this`cache, repo
      ensures Valid()
      ensures repo.rows == Rotated(kms, old(repo.rows), slot, raw, seed)
      ensures row == KeyRow(slot, Latest(old(repo.rows), slot) + 1, kms.encrypt(Decode(raw), seed), true)
    {
      ghost var before := repo.rows;
      RotatingKeepsOrder(kms, before, slot, raw, seed);
      RotatingKeepsKeys(kms, before, slot, raw, seed);
      AllInactive(before, slot);
      repo.DeactivateAll(slot);
      row := CreateDek(slot, raw, seed);
      CacheStaysCoherent(kms, before, repo.rows, old(cache));
    }
  }
}
