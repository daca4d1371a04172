/** Runs of the key service: any sequence of initialisations and rotations, from any stored keys.
    Looking keys up changes no row. */
module KeyRuns {
  import opened Ballots
  import opened KeyManagement
  import opened KeysManager

  datatype Step = Init(org: Option<Id>, random: Random) | Rotate(slot: Slot, raw: Dek, seed: nat)

  function Apply(kms: Kms, rows: seq<KeyRow>, step: Step): seq<KeyRow> {
    match step
    case Init(org, random) => InitialisedFor(kms, rows, org, |ALL_PURPOSES|, random)
    case Rotate(slot, raw, seed) => Rotated(kms, rows, slot, raw, seed)
  }

  function Run(kms: Kms, rows: seq<KeyRow>, steps: seq<Step>): seq<KeyRow> {
    if |steps| == 0 then rows else Apply(kms, Run(kms, rows, steps[..|steps| - 1]), steps[|steps| - 1])
  }

  /** After any run the versions of every slot still run 1, 2, ... with the highest alone active,
      and every key there was can be fetched with the bytes it had. */
  lemma {:induction false} RunKeepsKeys(kms: Kms, rows: seq<KeyRow>, steps: seq<Step>)
    requires Faithful(kms) && Ordered(rows) && Readable(kms, rows)
    ensures Ordered(Run(kms, rows, steps)) && Readable(kms, Run(kms, rows, steps))
    ensures KeysLast(kms, rows, Run(kms, rows, steps))
  {
    if |steps| > 0 {
      RunKeepsKeys(kms, rows, steps[..|steps| - 1]);
      var before := Run(kms, rows, steps[..|steps| - 1]);
      match steps[|steps| - 1] {
        case Init(org, random) =>
          InitialisingForKeeps(kms, before, org, |ALL_PURPOSES|, random);
        case Rotate(slot, raw, seed) =>
          RotatingKeepsOrder(kms, before, slot, raw, seed);
          RotatingKeepsKeys(kms, before, slot, raw, seed);
      }
      KeysLastTransitive(kms, rows, before, Run(kms, rows, steps));
    }
  }

  /** How often a slot is rotated in a run. */
  function Rotations(steps: seq<Step>, slot: Slot): nat {
    if |steps| == 0 then 0
    else
      var last := steps[|steps| - 1];
      Rotations(steps[..|steps| - 1], slot) + if last.Rotate? && last.slot == slot then 1 else 0
  }

  /** Once a slot has a key, its latest version counts its rotations; initialising again adds nothing. */
  lemma {:induction false} VersionsCountRotations(kms: Kms, rows: seq<KeyRow>, steps: seq<Step>, slot: Slot)
    requires Faithful(kms) && Latest(rows, slot) > 0
    ensures Latest(Run(kms, rows, steps), slot) == Latest(rows, slot) + Rotations(steps, slot)
  {
    if |steps| > 0 {
      VersionsCountRotations(kms, rows, steps[..|steps| - 1], slot);
      var before := Run(kms, rows, steps[..|steps| - 1]);
      match steps[|steps| - 1] {
        case Init(org, random) =>
          InitialisingForVersions(kms, before, org, |ALL_PURPOSES|, random, slot);
        case Rotate(rotated, raw, seed) =>
          RotatingKeepsKeys(kms, before, rotated, raw, seed);
      }
    }
  }

  /** The key a write takes for a purpose: the version is the one `build_encryption_args` reports. */
  function WriteKey(kms: Kms, rows: seq<KeyRow>, org: Option<Id>, purpose: Purpose): Fetched {
    Resolved(kms, rows, Slot(org, purpose), Some(Latest(rows, Slot(org, Storage))))
  }

  lemma {:induction false} CoversAll(org: Option<Id>, purpose: Purpose)
    ensures Covered(org, |ALL_PURPOSES|, Slot(org, purpose))
  {
    var i := match purpose case Database => 0 case Search => 1 case Storage => 2;
    assert ALL_PURPOSES[i] == purpose;
  }

  /** Keys as they are once an organisation that had none is initialised and any run follows. */
  lemma {:induction false} AfterInitialisation(kms: Kms, rows: seq<KeyRow>, org: Option<Id>, random: Random,
                                               steps: seq<Step>, purpose: Purpose)
    requires Faithful(kms) && Ordered(rows) && Readable(kms, rows) && Latest(rows, Slot(org, purpose)) == 0
    ensures var after := Run(kms, Apply(kms, rows, Init(org, random)), steps);
      Ordered(after) && Readable(kms, after)
      && Latest(after, Slot(org, purpose)) == 1 + Rotations(steps, Slot(org, purpose))
  {
    var ready := Apply(kms, rows, Init(org, random));
    InitialisingForKeeps(kms, rows, org, |ALL_PURPOSES|, random);
    InitialisingForVersions(kms, rows, org, |ALL_PURPOSES|, random, Slot(org, purpose));
    CoversAll(org, purpose);
    RunKeepsKeys(kms, ready, steps);
    VersionsCountRotations(kms, ready, steps, Slot(org, purpose));
  }

  /** What a stored version resolves to. */
  lemma {:induction false} ResolvedExactlyWhenStored(kms: Kms, rows: seq<KeyRow>, slot: Slot, version: nat)
    requires Readable(kms, rows) && Numbered(rows, slot)
    ensures Resolved(kms, rows, slot, Some(version)).Key? <==> 1 <= version <= Latest(rows, slot)
    ensures Resolved(kms, rows, slot, Some(version)).Key? ==>
      Resolved(kms, rows, slot, Some(version)).version == version
      && |Resolved(kms, rows, slot, Some(version)).plain| == 32
    ensures !Resolved(kms, rows, slot, Some(version)).Key? ==> Resolved(kms, rows, slot, Some(version)) == KeyError
  {
    WhereInHistory(rows, slot);
    if 1 <= version <= Latest(rows, slot) {
      StoredKey(kms, rows, RowsOf(rows, slot)[version - 1]);
    }
  }

  /** The manual promises that new writes use the current active key. They do for a purpose exactly
      when it has been rotated as often as STORAGE; rotated less often, nothing can be written. */
  lemma {:induction false} WritesUseTheActiveKeyExactlyWhen(kms: Kms, rows: seq<KeyRow>, org: Option<Id>,
                                                            random: Random,
                                         steps: seq<Step>, purpose: Purpose)
    requires Faithful(kms) && Ordered(rows) && Readable(kms, rows)
    requires forall p :: Latest(rows, Slot(org, p)) == 0
    ensures var after := Run(kms, Apply(kms, rows, Init(org, random)), steps);
      var mine, storage := Rotations(steps, Slot(org, purpose)), Rotations(steps, Slot(org, Storage));
      && (WriteKey(kms, after, org, purpose) == Resolved(kms, after, Slot(org, purpose), None) <==> mine == storage)
      && (WriteKey(kms, after, org, purpose) == KeyError <==> mine < storage)
  {
    AfterInitialisation(kms, rows, org, random, steps, purpose);
    AfterInitialisation(kms, rows, org, random, steps, Storage);
    var after := Run(kms, Apply(kms, rows, Init(org, random)), steps);
    var slot := Slot(org, purpose);
    assert IsHistory(RowsOf(after, slot));
    ResolvedExactlyWhenStored(kms, after, slot, Latest(after, slot));
    ResolvedExactlyWhenStored(kms, after, slot, Latest(after, Slot(org, Storage)));
  }

  /** A row stored under a blind index is searched for with the key it was indexed with exactly as
      long as STORAGE is not rotated; rotating SEARCH itself changes nothing. */
  lemma {:induction false} SearchKeyStaysExactlyWhen(kms: Kms, rows: seq<KeyRow>, org: Option<Id>, steps: seq<Step>)
    requires Faithful(kms) && Ordered(rows) && Readable(kms, rows)
    requires WriteKey(kms, rows, org, Search).Key?
    ensures WriteKey(kms, Run(kms, rows, steps), org, Search) == WriteKey(kms, rows, org, Search)
            <==> Rotations(steps, Slot(org, Storage)) == 0
  {
    var after := Run(kms, rows, steps);
    RunKeepsKeys(kms, rows, steps);
    var v := Latest(rows, Slot(org, Storage));
    VersionsCountRotations(kms, rows, steps, Slot(org, Storage));
    assert IsHistory(RowsOf(rows, Slot(org, Search))) && IsHistory(RowsOf(after, Slot(org, Search)));
    ResolvedExactlyWhenStored(kms, rows, Slot(org, Search), v);
    ResolvedExactlyWhenStored(kms, after, Slot(org, Search), Latest(after, Slot(org, Storage)));
    assert KeyLasts(kms, rows, after, Slot(org, Search), v);
  }
}
