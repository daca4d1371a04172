/** The life cycle of data encryption keys: backend/app/service/keys_manager_service.py over
    backend/app/repository/keys_manager_repo.py. The key management service that wraps keys is a
    pair of functions, assumed only to undo each other. */
module KeyManagement {
  import opened Ballots

  newtype byte = b: int | 0 <= b < 256
  type Bytes = seq<byte>

  /** 256-bit data encryption keys. */
  type Dek = b: Bytes | |b| == 32 witness seq(32, _ => 0)

  datatype Purpose = Database | Search | Storage

  const ALL_PURPOSES := [Database, Search, Storage]

  /** Keys belong to an organisation, or to the system, and serve one purpose. */
  datatype Slot = Slot(org: Option<Id>, purpose: Purpose)

  datatype KeyRow = KeyRow(slot: Slot, version: nat, wrapped: Bytes, active: bool)

  /** `encrypt` may draw on randomness; `decrypt` undoes it. */
  datatype Kms = Kms(encrypt: (string, nat) -> Bytes, decrypt: Bytes -> string)

  ghost predicate Faithful(kms: Kms) {
    forall text, seed :: kms.decrypt(kms.encrypt(text, seed)) == text
  }

  // ---- Latin-1 ----

  function Decode(bytes: Bytes): (text: string)
    ensures |text| == |bytes| && forall i :: 0 <= i < |bytes| ==> text[i] as int == bytes[i] as int
  {
    if |bytes| == 0 then "" else Decode(bytes[..|bytes| - 1]) + [bytes[|bytes| - 1] as char]
  }

  /** `text.encode("latin-1")`, which fails on characters beyond 255. */
  function Encode(text: string): Option<Bytes> {
    if |text| == 0 then Some([])
    else
      var front, last := Encode(text[..|text| - 1]), text[|text| - 1];
      if front.None? || last as int >= 256 then None else Some(front.value + [last as byte])
  }

  /** Latin-1 carries any bytes through text unchanged. */
  lemma {:induction false} Latin1IsTransparent(bytes: Bytes)
    ensures Encode(Decode(bytes)) == Some(bytes)
  {
    if |bytes| > 0 {
      var n := |bytes| - 1;
      Latin1IsTransparent(bytes[..n]);
      assert Decode(bytes)[..n] == Decode(bytes[..n]);
      assert bytes == bytes[..n] + [bytes[n]];
    }
  }

  // ---- The key rows ----

  /** The rows of a slot, in order of creation. */
  function RowsOf(rows: seq<KeyRow>, slot: Slot): seq<KeyRow> {
    if |rows| == 0 then []
    else RowsOf(rows[..|rows| - 1], slot) + if rows[|rows| - 1].slot == slot then [rows[|rows| - 1]] else []
  }

  /** The number of versions a slot has had. */
  function Latest(rows: seq<KeyRow>, slot: Slot): nat {
    |RowsOf(rows, slot)|
  }

  function Newest(rows: seq<KeyRow>, slot: Slot): KeyRow
    requires Latest(rows, slot) > 0
  {
    RowsOf(rows, slot)[Latest(rows, slot) - 1]
  }

  /** Versions run 1, 2, ... without gaps, and the active row is the highest one. */
  ghost predicate IsHistory(history: seq<KeyRow>) {
    forall i :: 0 <= i < |history| ==> history[i].version == i + 1 && (history[i].active <==> i == |history| - 1)
  }

  ghost predicate Numbered(rows: seq<KeyRow>, slot: Slot) {
    forall i :: 0 <= i < Latest(rows, slot) ==> RowsOf(rows, slot)[i].version == i + 1
  }

  ghost predicate Ordered(rows: seq<KeyRow>) {
    forall slot :: IsHistory(RowsOf(rows, slot))
  }

  /** Every stored key unwraps to a key. */
  ghost predicate Readable(kms: Kms, rows: seq<KeyRow>) {
    forall i :: 0 <= i < |rows| ==> Unwraps(kms, rows[i])
  }

  ghost predicate Unwraps(kms: Kms, row: KeyRow) {
    Encode(kms.decrypt(row.wrapped)).Some? && |Encode(kms.decrypt(row.wrapped)).value| == 32
  }

  /** The plain key of a version, as the stored row unwraps. */
  function PlainKey(kms: Kms, rows: seq<KeyRow>, slot: Slot, version: nat): Option<Bytes> {
    if 1 <= version <= Latest(rows, slot) then Encode(kms.decrypt(RowsOf(rows, slot)[version - 1].wrapped)) else None
  }

  // ---- What creation and rotation do to the rows ----

  function Off(row: KeyRow, slot: Slot): KeyRow {
    if row.slot == slot then row.(active := false) else row
  }

  /** `deactivate_all`. */
  function Deactivated(rows: seq<KeyRow>, slot: Slot): seq<KeyRow> {
    if |rows| == 0 then []
    else Deactivated(rows[..|rows| - 1], slot) + [Off(rows[|rows| - 1], slot)]
  }

  /** `_create_dek`: wrap a new key and store it as the next version. */
  function Created(kms: Kms, rows: seq<KeyRow>, slot: Slot, raw: Dek, seed: nat): seq<KeyRow> {
    rows + [KeyRow(slot, Latest(rows, slot) + 1, kms.encrypt(Decode(raw), seed), true)]
  }

  function Rotated(kms: Kms, rows: seq<KeyRow>, slot: Slot, raw: Dek, seed: nat): seq<KeyRow> {
    Created(kms, Deactivated(rows, slot), slot, raw, seed)
  }

  /** The part of `init_org_keys` for one purpose: nothing when the slot has a key. */
  function Initialised(kms: Kms, rows: seq<KeyRow>, slot: Slot, raw: Dek, seed: nat): seq<KeyRow> {
    if Latest(rows, slot) > 0 then rows else Created(kms, rows, slot, raw, seed)
  }

  /** Where the fresh keys and the randomness of a request come from. */
  datatype Random = Random(raw: Purpose -> Dek, seed: Purpose -> nat)

  /** `init_org_keys` over the first `n` purposes. */
  function InitialisedFor(kms: Kms, rows: seq<KeyRow>, org: Option<Id>, n: nat, random: Random): seq<KeyRow>
    requires n <= |ALL_PURPOSES|
  {
    if n == 0 then rows
    else
      var p := ALL_PURPOSES[n - 1];
      Initialised(kms, InitialisedFor(kms, rows, org, n - 1, random), Slot(org, p), random.raw(p), random.seed(p))
  }

  lemma {:induction false} RowsOfAppend(rows: seq<KeyRow>, row: KeyRow, slot: Slot)
    ensures RowsOf(rows + [row], slot) == RowsOf(rows, slot) + if row.slot == slot then [row] else []
  {
    assert (rows + [row])[..|rows|] == rows;
  }

  lemma {:induction false} OthersUntouched(rows: seq<KeyRow>, slot: Slot, other: Slot)
    requires other != slot
    ensures RowsOf(Deactivated(rows, slot), other) == RowsOf(rows, other)
  {
    if |rows| > 0 {
      OthersUntouched(rows[..|rows| - 1], slot, other);
      RowsOfAppend(Deactivated(rows[..|rows| - 1], slot), Off(rows[|rows| - 1], slot), other);
    }
  }

  lemma {:induction false} AllInactive(rows: seq<KeyRow>, slot: Slot)
    ensures Latest(Deactivated(rows, slot), slot) == Latest(rows, slot)
    ensures forall i :: 0 <= i < Latest(rows, slot) ==>
      RowsOf(Deactivated(rows, slot), slot)[i] == RowsOf(rows, slot)[i].(active := false)
  {
    if |rows| > 0 {
      AllInactive(rows[..|rows| - 1], slot);
      RowsOfAppend(Deactivated(rows[..|rows| - 1], slot), Off(rows[|rows| - 1], slot), slot);
    }
  }

  /** Storing a key after all older ones are inactive keeps the history in order. */
  lemma {:induction false} CreatingKeepsOrder(kms: Kms, rows: seq<KeyRow>, slot: Slot, raw: Dek, seed: nat)
    requires forall other :: other != slot ==> IsHistory(RowsOf(rows, other))
    requires Numbered(rows, slot) && forall i :: 0 <= i < Latest(rows, slot) ==> !RowsOf(rows, slot)[i].active
    ensures Ordered(Created(kms, rows, slot, raw, seed))
  {
    var row := KeyRow(slot, Latest(rows, slot) + 1, kms.encrypt(Decode(raw), seed), true);
    forall other ensures IsHistory(RowsOf(rows + [row], other)) {
      RowsOfAppend(rows, row, other);
    }
  }

  lemma {:induction false} RotatingKeepsOrder(kms: Kms, rows: seq<KeyRow>, slot: Slot, raw: Dek, seed: nat)
    requires Ordered(rows)
    ensures Ordered(Rotated(kms, rows, slot, raw, seed))
  {
    forall other ensures other != slot ==> IsHistory(RowsOf(Deactivated(rows, slot), other)) {
      if other != slot {
        OthersUntouched(rows, slot, other);
        assert IsHistory(RowsOf(rows, other));
      }
    }
    AllInactive(rows, slot);
    assert IsHistory(RowsOf(rows, slot));
    CreatingKeepsOrder(kms, Deactivated(rows, slot), slot, raw, seed);
  }

  lemma {:induction false} InitialisingKeepsOrder(kms: Kms, rows: seq<KeyRow>, slot: Slot, raw: Dek, seed: nat)
    requires Ordered(rows)
    ensures Ordered(Initialised(kms, rows, slot, raw, seed))
  {
    if Latest(rows, slot) == 0 {
      forall other ensures other != slot ==> IsHistory(RowsOf(rows, other)) {
      }
      CreatingKeepsOrder(kms, rows, slot, raw, seed);
    }
  }

  // ---- Old keys stay readable ----

  /** Every key there was is there still, with the same plain bytes. */
  ghost predicate KeysLast(kms: Kms, before: seq<KeyRow>, after: seq<KeyRow>) {
    forall slot, version :: 1 <= version <= Latest(before, slot) ==> KeyLasts(kms, before, after, slot, version)
  }

  ghost predicate KeyLasts(kms: Kms, before: seq<KeyRow>, after: seq<KeyRow>, slot: Slot, version: nat) {
    version <= Latest(after, slot) && PlainKey(kms, after, slot, version) == PlainKey(kms, before, slot, version)
  }

  lemma {:induction false} CreatingKeepsKeys(kms: Kms, rows: seq<KeyRow>, slot: Slot, raw: Dek, seed: nat)
    requires Faithful(kms)
    ensures KeysLast(kms, rows, Created(kms, rows, slot, raw, seed))
    ensures Latest(Created(kms, rows, slot, raw, seed), slot) == Latest(rows, slot) + 1
    ensures PlainKey(kms, Created(kms, rows, slot, raw, seed), slot, Latest(rows, slot) + 1) == Some(raw)
    ensures forall other :: other != slot ==> Latest(Created(kms, rows, slot, raw, seed), other) == Latest(rows, other)
    ensures Readable(kms, rows) ==> Readable(kms, Created(kms, rows, slot, raw, seed))
  {
    var row := KeyRow(slot, Latest(rows, slot) + 1, kms.encrypt(Decode(raw), seed), true);
    Latin1IsTransparent(raw);
    RowsOfAppend(rows, row, slot);
    forall other, version | 1 <= version <= Latest(rows, other)
      ensures KeyLasts(kms, rows, rows + [row], other, version)
    {
      RowsOfAppend(rows, row, other);
    }
    forall other | other != slot ensures Latest(rows + [row], other) == Latest(rows, other) {
      RowsOfAppend(rows, row, other);
    }
  }

  lemma {:induction false} DeactivatingKeepsKeys(kms: Kms, rows: seq<KeyRow>, slot: Slot)
    ensures KeysLast(kms, rows, Deactivated(rows, slot))
    ensures forall other :: Latest(Deactivated(rows, slot), other) == Latest(rows, other)
    ensures Readable(kms, rows) ==> Readable(kms, Deactivated(rows, slot))
  {
    forall other, version | 1 <= version <= Latest(rows, other)
      ensures KeyLasts(kms, rows, Deactivated(rows, slot), other, version)
    {
      if other == slot {
        AllInactive(rows, slot);
      } else {
        OthersUntouched(rows, slot, other);
      }
    }
    forall other ensures Latest(Deactivated(rows, slot), other) == Latest(rows, other) {
      if other == slot {
        AllInactive(rows, slot);
      } else {
        OthersUntouched(rows, slot, other);
      }
    }
    DeactivatedAt(rows, slot);
  }

  lemma {:induction false} DeactivatedAt(rows: seq<KeyRow>, slot: Slot)
    ensures |Deactivated(rows, slot)| == |rows|
    ensures forall i :: 0 <= i < |rows| ==> Deactivated(rows, slot)[i] == Off(rows[i], slot)
  {
    if |rows| > 0 {
      DeactivatedAt(rows[..|rows| - 1], slot);
    }
  }

  lemma {:induction false} KeysLastTransitive(kms: Kms, a: seq<KeyRow>, b: seq<KeyRow>, c: seq<KeyRow>)
    requires KeysLast(kms, a, b) && KeysLast(kms, b, c)
    ensures KeysLast(kms, a, c)
  {
    forall slot, version | 1 <= version <= Latest(a, slot) ensures KeyLasts(kms, a, c, slot, version) {
      assert KeyLasts(kms, a, b, slot, version);
      assert KeyLasts(kms, b, c, slot, version);
    }
  }

  lemma {:induction false} RotatingKeepsKeys(kms: Kms, rows: seq<KeyRow>, slot: Slot, raw: Dek, seed: nat)
    requires Faithful(kms)
    ensures KeysLast(kms, rows, Rotated(kms, rows, slot, raw, seed))
    ensures Latest(Rotated(kms, rows, slot, raw, seed), slot) == Latest(rows, slot) + 1
    ensures PlainKey(kms, Rotated(kms, rows, slot, raw, seed), slot, Latest(rows, slot) + 1) == Some(raw)
    ensures forall other :: other != slot ==> Latest(Rotated(kms, rows, slot, raw, seed), other) == Latest(rows, other)
    ensures Readable(kms, rows) ==> Readable(kms, Rotated(kms, rows, slot, raw, seed))
  {
    DeactivatingKeepsKeys(kms, rows, slot);
    CreatingKeepsKeys(kms, Deactivated(rows, slot), slot, raw, seed);
    KeysLastTransitive(kms, rows, Deactivated(rows, slot), Rotated(kms, rows, slot, raw, seed));
  }

  lemma {:induction false} KeysLastReflexive(kms: Kms, rows: seq<KeyRow>)
    ensures KeysLast(kms, rows, rows)
  {
  }

  lemma {:induction false} InitialisingOneKeeps(kms: Kms, rows: seq<KeyRow>, slot: Slot, raw: Dek, seed: nat)
    requires Faithful(kms) && Ordered(rows) && Readable(kms, rows)
    ensures var after := Initialised(kms, rows, slot, raw, seed);
      Ordered(after) && Readable(kms, after) && KeysLast(kms, rows, after)
  {
    InitialisingKeepsOrder(kms, rows, slot, raw, seed);
    if Latest(rows, slot) == 0 {
      CreatingKeepsKeys(kms, rows, slot, raw, seed);
    } else {
      KeysLastReflexive(kms, rows);
    }
  }

  /** Initialising loses no key. */
  lemma {:induction false} InitialisingForKeeps(kms: Kms, rows: seq<KeyRow>, org: Option<Id>, n: nat, random: Random)
    requires n <= |ALL_PURPOSES| && Faithful(kms) && Ordered(rows) && Readable(kms, rows)
    ensures var after := InitialisedFor(kms, rows, org, n, random);
      Ordered(after) && Readable(kms, after) && KeysLast(kms, rows, after)
  {
    if n == 0 {
      KeysLastReflexive(kms, rows);
    } else {
      InitialisingForKeeps(kms, rows, org, n - 1, random);
      var before := InitialisedFor(kms, rows, org, n - 1, random);
      var p := ALL_PURPOSES[n - 1];
      var after := Initialised(kms, before, Slot(org, p), random.raw(p), random.seed(p));
      InitialisingOneKeeps(kms, before, Slot(org, p), random.raw(p), random.seed(p));
      KeysLastTransitive(kms, rows, before, after);
    }
  }

  predicate Covered(org: Option<Id>, n: nat, slot: Slot)
    requires n <= |ALL_PURPOSES|
  {
    exists i :: 0 <= i < n && slot == Slot(org, ALL_PURPOSES[i])
  }

  /** Initialising leaves every slot that has a key alone, and gives each purpose of the organisation one. */
  lemma {:induction false} InitialisingForVersions(kms: Kms, rows: seq<KeyRow>, org: Option<Id>, n: nat, random: Random,
                                                   slot: Slot)
    requires n <= |ALL_PURPOSES| && Faithful(kms)
    ensures Latest(InitialisedFor(kms, rows, org, n, random), slot)
            == if Latest(rows, slot) == 0 && Covered(org, n, slot) then 1 else Latest(rows, slot)
  {
    if n > 0 {
      InitialisingForVersions(kms, rows, org, n - 1, random, slot);
      var before := InitialisedFor(kms, rows, org, n - 1, random);
      var p := ALL_PURPOSES[n - 1];
      assert Covered(org, n, slot) <==> Covered(org, n - 1, slot) || slot == Slot(org, p);
      if Latest(before, Slot(org, p)) == 0 {
        CreatingKeepsKeys(kms, before, Slot(org, p), random.raw(p), random.seed(p));
      }
    }
  }

  /** The key of an earlier purpose outlasts the initialisation of the next. */
  lemma {:induction false} FirstKeyStays(kms: Kms, rows: seq<KeyRow>, org: Option<Id>, n: nat, random: Random,
                                         slot: Slot)
    requires 0 < n <= |ALL_PURPOSES| && Faithful(kms) && Ordered(rows) && Readable(kms, rows)
    requires Latest(rows, slot) == 0 && Covered(org, n - 1, slot)
    ensures PlainKey(kms, InitialisedFor(kms, rows, org, n, random), slot, 1)
            == PlainKey(kms, InitialisedFor(kms, rows, org, n - 1, random), slot, 1)
  {
    var before := InitialisedFor(kms, rows, org, n - 1, random);
    var p := ALL_PURPOSES[n - 1];
    InitialisingForKeeps(kms, rows, org, n - 1, random);
    InitialisingOneKeeps(kms, before, Slot(org, p), random.raw(p), random.seed(p));
    InitialisingForVersions(kms, rows, org, n - 1, random, slot);
    assert KeyLasts(kms, before, InitialisedFor(kms, rows, org, n, random), slot, 1);
  }

  lemma {:induction false} FirstKeyIsGenerated(kms: Kms, rows: seq<KeyRow>, org: Option<Id>, n: nat, random: Random)
    requires n < |ALL_PURPOSES| && Faithful(kms) && Latest(rows, Slot(org, ALL_PURPOSES[n])) == 0
    ensures PlainKey(kms, InitialisedFor(kms, rows, org, n + 1, random), Slot(org, ALL_PURPOSES[n]), 1)
            == Some(random.raw(ALL_PURPOSES[n]))
  {
    var p := ALL_PURPOSES[n];
    InitialisingForVersions(kms, rows, org, n, random, Slot(org, p));
    assert !Covered(org, n, Slot(org, p));
    CreatingKeepsKeys(kms, InitialisedFor(kms, rows, org, n, random), Slot(org, p), random.raw(p), random.seed(p));
  }

  /** Each purpose of the organisation that had no key now has the one generated for it. */
  lemma {:induction false} InitialisingGivesKeys(kms: Kms, rows: seq<KeyRow>, org: Option<Id>, n: nat, random: Random,
                                                 i: nat)
    requires i < n <= |ALL_PURPOSES| && Faithful(kms) && Ordered(rows) && Readable(kms, rows)
    requires Latest(rows, Slot(org, ALL_PURPOSES[i])) == 0
    ensures PlainKey(kms, InitialisedFor(kms, rows, org, n, random), Slot(org, ALL_PURPOSES[i]), 1)
            == Some(random.raw(ALL_PURPOSES[i]))
  {
    if i < n - 1 {
      InitialisingGivesKeys(kms, rows, org, n - 1, random, i);
      assert Covered(org, n - 1, Slot(org, ALL_PURPOSES[i]));
      FirstKeyStays(kms, rows, org, n, random, Slot(org, ALL_PURPOSES[i]));
    } else {
      FirstKeyIsGenerated(kms, rows, org, i, random);
    }
  }
}
