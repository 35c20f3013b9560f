/** Claim and release over every interleaving of emissions (internal/automationevent/emitter.go). */
module EmitterRuns {
  import opened Wrappers
  import opened EntryTables
  import opened Emitter

  /** A row, and the key its process held a claim on when it saved it. */
  datatype SavedEntry = SavedEntry(key: ClaimKey, row: Row)

  /** The tables and the emissions between claim and release: `held` by process, `saved` since the start, `orphaned` by
      processes that died in between. */
  datatype State = State(db: DB, held: map<nat, ClaimKey>, saved: seq<SavedEntry>, orphaned: set<ClaimKey>)

  function Keys(saved: seq<SavedEntry>): set<ClaimKey> {
    set i | 0 <= i < |saved| :: saved[i].key
  }

  function Rows(saved: seq<SavedEntry>): (rows: seq<Row>)
    ensures |rows| == |saved|
  {
    seq(|saved|, (i: nat) requires i < |saved| => saved[i].row)
  }

  predicate KeysDistinct(saved: seq<SavedEntry>) {
    forall i, j :: 0 <= i < j < |saved| ==> saved[i].key != saved[j].key
  }

  lemma SavedSnoc(saved: seq<SavedEntry>, s: SavedEntry)
    ensures Keys(saved + [s]) == Keys(saved) + {s.key}
    ensures Rows(saved + [s]) == Rows(saved) + [s.row]
    ensures KeysDistinct(saved) && s.key !in Keys(saved) ==> KeysDistinct(saved + [s])
  {
    var all := saved + [s];
    forall k ensures k in Keys(all) <==> k in Keys(saved) || k == s.key {
      if k in Keys(saved) {
        var i :| 0 <= i < |saved| && saved[i].key == k;
        assert all[i] == saved[i];
      }
      if k == s.key {
        assert all[|saved|] == s;
      }
    }
    forall i | 0 <= i < |saved| ensures saved[i].key in Keys(saved) {
    }
  }

  /** The atomic statements of one process each. */
  datatype Action =
    | Claim(process: nat, key: ClaimKey, payload: string)
    | Save(process: nat, row: Row)
    | Release(process: nat)
    | Die(process: nat)

  /** A process claims when it holds nothing and goes on only when it holds a claim. */
  function Act(s: State, a: Action): State {
    match a
    case Claim(p, key, payload) =>
      if p in s.held || key in s.db.claims then s
      else s.(db := DB(s.db.entries, s.db.claims[key := ClaimRow(payload, None)]), held := s.held[p := key])
    case Save(p, row) =>
      if p !in s.held || IdTaken(s.db.entries, row.id) then s
      else State(DB(s.db.entries + [row], s.db.claims), s.held - {p}, s.saved + [SavedEntry(s.held[p], row)], s.orphaned)
    case Release(p) =>
      if p !in s.held then s
      else s.(db := DB(s.db.entries, s.db.claims - {s.held[p]}), held := s.held - {p})
    case Die(p) =>
      if p !in s.held then s
      else s.(held := s.held - {p}, orphaned := s.orphaned + {s.held[p]})
  }

  function Run(s: State, actions: seq<Action>): State {
    if actions == [] then s else Act(Run(s, actions[..|actions| - 1]), actions[|actions| - 1])
  }

  function Start(db: DB): State {
    State(db, map[], [], {})
  }

  // What every interleaving keeps

  /** Each claim taken since the start is held, saved or orphaned, never two of them, never one key twice and never a key
      claimed before; the entries added since are those that were saved, one for each of their keys. */
  ghost predicate Consistent(db0: DB, s: State) {
    && s.db.entries == db0.entries + Rows(s.saved)
    && KeysDistinct(s.saved)
    && (forall p, q :: p in s.held && q in s.held && p != q ==> s.held[p] != s.held[q])
    && (forall p :: p in s.held ==> s.held[p] !in Keys(s.saved) && s.held[p] !in s.orphaned && s.held[p] !in db0.claims)
    && (forall key :: key in s.orphaned ==> key !in Keys(s.saved) && key !in db0.claims)
    && (forall key :: key in Keys(s.saved) ==> key !in db0.claims)
    && (forall key :: key in s.db.claims <==> key in db0.claims || key in Keys(s.saved) || key in s.orphaned || key in s.held.Values)
  }

  lemma HeldValue(held: map<nat, ClaimKey>, p: nat)
    requires p in held
    ensures held[p] in held.Values
  {
  }

  lemma ClaimKeeps(db0: DB, s: State, p: nat, key: ClaimKey, payload: string)
    requires Consistent(db0, s)
    ensures Consistent(db0, Act(s, Claim(p, key, payload)))
  {
    var t := Act(s, Claim(p, key, payload));
    if p !in s.held && key !in s.db.claims {
      forall q | q in s.held ensures s.held[q] != key { HeldValue(s.held, q); }
      forall k ensures k in t.held.Values <==> k in s.held.Values || k == key {
        if k in s.held.Values {
          var q :| q in s.held && s.held[q] == k;
          assert t.held[q] == k;
        }
        if k == key { assert t.held[p] == key; }
      }
    }
  }

  lemma ReleasedValues(s: State, p: nat)
    requires p in s.held
    requires forall p, q :: p in s.held && q in s.held && p != q ==> s.held[p] != s.held[q]
    ensures forall k :: k in (s.held - {p}).Values <==> k in s.held.Values && k != s.held[p]
  {
    var held := s.held - {p};
    forall k ensures k in held.Values <==> k in s.held.Values && k != s.held[p] {
      if k in s.held.Values && k != s.held[p] {
        var q :| q in s.held && s.held[q] == k;
        assert held[q] == k;
      }
    }
  }

  lemma SaveKeeps(db0: DB, s: State, p: nat, row: Row)
    requires Consistent(db0, s)
    ensures Consistent(db0, Act(s, Save(p, row)))
  {
    hide IdTaken, Keys, Rows, KeysDistinct;
    var t := Act(s, Save(p, row));
    if t != s {
      ReleasedValues(s, p);
      HeldValue(s.held, p);
      SavedSnoc(s.saved, SavedEntry(s.held[p], row));
      assert s.db.entries + [row] == db0.entries + (Rows(s.saved) + [row]);
    }
  }

  lemma ReleaseKeeps(db0: DB, s: State, p: nat)
    requires Consistent(db0, s)
    ensures Consistent(db0, Act(s, Release(p)))
  {
    hide Keys, Rows, KeysDistinct;
    if p in s.held {
      ReleasedValues(s, p);
      HeldValue(s.held, p);
    }
  }

  lemma DeathKeeps(db0: DB, s: State, p: nat)
    requires Consistent(db0, s)
    ensures Consistent(db0, Act(s, Die(p)))
  {
    hide Keys, Rows, KeysDistinct;
    if p in s.held {
      ReleasedValues(s, p);
      HeldValue(s.held, p);
    }
  }

  lemma {:induction false} EveryInterleavingIsConsistent(db0: DB, actions: seq<Action>)
    ensures Consistent(db0, Run(Start(db0), actions))
  {
    hide Act;
    if actions == [] {
    } else {
      hide Consistent;
      var s := Run(Start(db0), actions[..|actions| - 1]);
      EveryInterleavingIsConsistent(db0, actions[..|actions| - 1]);
      match actions[|actions| - 1]
      case Claim(p, key, payload) => ClaimKeeps(db0, s, p, key, payload);
      case Save(p, row) => SaveKeeps(db0, s, p, row);
      case Release(p) => ReleaseKeeps(db0, s, p);
      case Die(p) => DeathKeeps(db0, s, p);
    }
  }

  predicate NobodyDies(actions: seq<Action>) {
    forall i :: 0 <= i < |actions| ==> !actions[i].Die?
  }

  /** Every process that dies holds no claim then. */
  predicate NoClaimLost(s: State, actions: seq<Action>) {
    forall i :: 0 <= i < |actions| && actions[i].Die? ==> actions[i].process !in Run(s, actions[..i]).held
  }

  lemma {:induction false} OrphansAreLostClaims(s: State, actions: seq<Action>)
    requires s.orphaned == {}
    ensures Run(s, actions).orphaned == {} <==> NoClaimLost(s, actions)
  {
    if actions != [] {
      var n := |actions| - 1;
      var front := actions[..n];
      OrphansAreLostClaims(s, front);
      assert forall i | 0 <= i < n :: front[i] == actions[i] && front[..i] == actions[..i];
      LostSnoc(s, actions);
    }
  }

  lemma LostSnoc(s: State, actions: seq<Action>)
    requires actions != []
    ensures var n := |actions| - 1;
            && (NoClaimLost(s, actions) <==> NoClaimLost(s, actions[..n]) && (actions[n].Die? ==> actions[n].process !in Run(s, actions[..n]).held))
            && (Run(s, actions).orphaned == {} <==>
                Run(s, actions[..n]).orphaned == {} && (actions[n].Die? ==> actions[n].process !in Run(s, actions[..n]).held))
  {
    hide IdTaken;
    var n := |actions| - 1;
    forall i | 0 <= i < n ensures actions[..n][i] == actions[i] && actions[..n][..i] == actions[..i] {
    }
  }

  /** Once no emission is under way, the entries there are besides the first ones are those saved, no two under one key and
      none under a key claimed before. The claims taken since the start are exactly their keys if and only if no process
      died while it held one. */
  lemma AtRestClaimsAreSaved(db0: DB, actions: seq<Action>)
    requires Run(Start(db0), actions).held == map[]
    ensures var s := Run(Start(db0), actions);
            && s.db.entries == db0.entries + Rows(s.saved)
            && KeysDistinct(s.saved)
            && (forall key :: key in Keys(s.saved) ==> key !in db0.claims)
            && (s.db.claims.Keys == db0.claims.Keys + Keys(s.saved) <==> NoClaimLost(Start(db0), actions))
  {
    hide Act, Run, NoClaimLost;
    EveryInterleavingIsConsistent(db0, actions);
    OrphansAreLostClaims(Start(db0), actions);
    var s := Run(Start(db0), actions);
    if s.db.claims.Keys == db0.claims.Keys + Keys(s.saved) {
      assert forall key | key in s.orphaned :: key in s.db.claims.Keys;
    }
  }

  /** The claim of a process that dies before it can release it blocks its key for good: no entry is ever saved for it. */
  lemma {:induction false} OrphansBlockTheirKey(db0: DB, before: seq<Action>, after: seq<Action>, key: ClaimKey)
    requires key in Run(Start(db0), before).orphaned
    ensures var s := Run(Start(db0), before + after);
            key in s.orphaned && key in s.db.claims && key !in Keys(s.saved) && key !in s.held.Values
  {
    hide Act;
    OrphansStay(Start(db0), before, after, key);
    EveryInterleavingIsConsistent(db0, before + after);
  }

  lemma {:induction false} OrphansStay(s: State, before: seq<Action>, after: seq<Action>, key: ClaimKey)
    requires key in Run(s, before).orphaned
    ensures key in Run(s, before + after).orphaned
    decreases |after|
  {
    hide IdTaken;
    if after == [] {
      assert before + after == before;
    } else {
      OrphansStay(s, before, after[..|after| - 1], key);
      assert (before + after)[..|before + after| - 1] == before + after[..|after| - 1];
    }
  }

  // One emission at a time

  /** The actions of an emission by process 0 that runs on its own. */
  function ActionsOf(db: DB, e: Emission, faults: set<Fault>): seq<Action> {
    if ClaimInsert in faults then []
    else
      var row := RowToSave(db, e, faults);
      if e.ClaimKey() in db.claims then [Claim(0, e.ClaimKey(), e.payload)]
      else if row.None? then [Claim(0, e.ClaimKey(), e.payload), Release(0)]
      else [Claim(0, e.ClaimKey(), e.payload), Save(0, row.value)]
  }

  lemma RunTwo(s: State, actions: seq<Action>, a: Action, b: Action)
    ensures Run(s, actions + [a]) == Act(Run(s, actions), a)
    ensures Run(s, actions + [a, b]) == Act(Act(Run(s, actions), a), b)
  {
    hide Act;
    assert (actions + [a])[..|actions|] == actions;
    assert (actions + [a, b])[..|actions| + 1] == actions + [a];
  }

  /** An emission on its own is the interleaving of its actions, and leaves nothing held. */
  lemma EmitStepIsItsActions(s: State, actions: seq<Action>, e: Emission, faults: set<Fault>)
    requires e.Claims() && Run(s, actions).held == map[]
    ensures var t := Run(s, actions);
            var u := Run(s, actions + ActionsOf(t.db, e, faults));
            && u.db == EmitStep(t.db, e, faults).0
            && u.held == map[]
            && u.saved == (if SavesEntry(t.db, e, faults)
                           then t.saved + [SavedEntry(e.ClaimKey(), EmitStep(t.db, e, faults).1.value.row)] else t.saved)
  {
    hide Run, IdTaken, BuildRow;
    var t := Run(s, actions);
    var claim := Claim(0, e.ClaimKey(), e.payload);
    var row := RowToSave(t.db, e, faults);
    if ClaimInsert in faults {
      assert actions + ActionsOf(t.db, e, faults) == actions;
    } else {
      RunTwo(s, actions, claim, if row.None? then Release(0) else Save(0, row.value));
      if e.ClaimKey() !in t.db.claims {
        assert t.db.claims[e.ClaimKey() := ClaimRow(e.payload, None)] - {e.ClaimKey()} == t.db.claims;
        assert t.held[0 := e.ClaimKey()] - {0} == t.held;
      }
    }
  }

  predicate SavesEntry(db: DB, e: Emission, faults: set<Fault>) {
    var r := EmitStep(db, e, faults).1;
    r.Some? && r.value.Saved?
  }

  /** A failed emission leaves its key free, so that it can be tried again. */
  lemma FailedEmissionChangesNothing(db: DB, e: Emission, faults: set<Fault>)
    ensures EmitStep(db, e, faults).1.None? ==> EmitStep(db, e, faults).0 == db
    ensures EmitStep(db, e, faults).1 == Some(Duplicate) ==> EmitStep(db, e, faults).0 == db
  {
    hide RowToSave;
  }

  /** Once an emission is saved or found saved, repeating it changes nothing, whatever fails then. */
  lemma RepeatedEmissionAddsNothing(db: DB, e: Emission, faults: set<Fault>, e': Emission, faults': set<Fault>)
    requires e.Claims() && EmitStep(db, e, faults).1.Some?
    requires e'.Claims() && e'.ClaimKey() == e.ClaimKey()
    ensures var db' := EmitStep(db, e, faults).0;
            EmitStep(db', e', faults') == (db', if ClaimInsert in faults' then None else Some(Duplicate))
  {
    hide RowToSave;
  }
}
