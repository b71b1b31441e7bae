/** The persisted form of a trailing stop: the fields of its order hash, written when it is placed, read
    back at every tick, and rewritten only where they change (fieldsFrom and readTrailing in
    src/engine/trailing-math.ts, persistTrailingEvaluation in src/engine/trailing-state.ts). */
module TrailingHash {
  import opened Prelude
  import opened TrailingMath

  datatype Field = TrKind | TrValue | TrActPx | TrActivated | TrBest | TrSzDec | TriggerPx | LimitPx

  /** A stored string: empty, a decimal number, or one of the words the fields use. */
  datatype Cell = Empty | Number(x: real) | WordTrue | WordFalse | WordPx | WordPct

  type Hash = map<Field, Cell>

  /** A missing field reads like an empty one. */
  function Get(h: Hash, f: Field): Cell {
    if f in h then h[f] else Empty
  }

  function Flag(b: bool): Cell {
    if b then WordTrue else WordFalse
  }

  function FromOption(v: Option<real>): Cell {
    match v
    case Some(x) => Number(x)
    case None => Empty
  }

  function NumberOf(c: Cell): real {
    match c
    case Number(x) => x
    case _ => 0.0
  }

  function ToOption(c: Cell): Option<real> {
    if c == Empty then None else Some(NumberOf(c))
  }

  function FieldsFrom(p: Params, s: State): Hash {
    map[TrKind := if p.retracement.Percent? then WordPct else WordPx,
        TrValue := Number(match p.retracement case Distance(steps) => steps as real case Percent(pct) => pct),
        TrActPx := FromOption(p.activationPx),
        TrActivated := Flag(s.activated),
        TrBest := FromOption(s.best),
        TrSzDec := Number(p.szDecimals as real)]
  }

  function ReadParams(isBuy: bool, h: Hash): Params {
    var value := NumberOf(Get(h, TrValue));
    var decimals := NumberOf(Get(h, TrSzDec)).Floor;
    Params(isBuy,
           if Get(h, TrKind) == WordPct then Percent(value) else Distance(value.Floor),
           ToOption(Get(h, TrActPx)),
           if decimals >= 0 then decimals else 0)
  }

  function ReadState(h: Hash): State {
    State(Get(h, TrActivated) == WordTrue, ToOption(Get(h, TrBest)))
  }

  /** What an evaluation would have the four live fields say. */
  function LiveFields(ev: Eval): Hash {
    map[TrActivated := Flag(ev.state.activated),
        TrBest := FromOption(ev.state.best),
        TriggerPx := FromOption(if ev.triggerPx.Some? then Some(ev.triggerPx.value as real) else None),
        LimitPx := Number(ev.limitPx as real)]
  }

  /** The fields among done that next would change. */
  function Differing(h: Hash, next: Hash, done: set<Field>): Hash {
    map f | f in next && f in done && Get(h, f) != next[f] :: next[f]
  }

  function Persist(h: Hash, ev: Eval): Hash {
    h + Differing(h, LiveFields(ev), LiveFields(ev).Keys)
  }

  /** The write of one evaluation: only the fields that differ, and no write at all when none does. */
  method PersistTrailingEvaluation(h: Hash, ev: Eval) returns (stored: Hash, changed: bool)
    ensures stored == Persist(h, ev)
    ensures changed <==> stored != h
  {
    var next := LiveFields(ev);
    var fields := [TrActivated, TrBest, TriggerPx, LimitPx];
    var diff: Hash := map[];
    assert diff == Differing(h, next, {});
    ghost var done: set<Field> := {};
    hide LiveFields, Differing;
    var i := 0;
    while i < |fields|
      invariant 0 <= i <= |fields|
      invariant done == set f | f in fields[..i]
      invariant diff == Differing(h, next, done)
    {
      var f := fields[i];
      assert fields[..i + 1] == fields[..i] + [f];
      LiveKeys(ev);
      DifferingExtends(h, next, done, f);
      if Get(h, f) != next[f] {
        diff := diff[f := next[f]];
      }
      done := done + {f};
      i := i + 1;
    }
    LiveKeys(ev);
    assert fields[..i] == fields;
    assert done == next.Keys;
    if diff.Keys == {} {
      assert h + diff == h;
      return h, false;
    }
    assert (forall y :: y !in diff.Keys) ==> diff.Keys == {};
    ghost var f :| f in diff.Keys;
    assert Get(h + diff, f) != Get(h, f);
    return h + diff, true;
  }

  lemma DifferingExtends(h: Hash, next: Hash, done: set<Field>, f: Field)
    requires f in next
    ensures
      var diff := Differing(h, next, done);
      Differing(h, next, done + {f}) == if Get(h, f) != next[f] then diff[f := next[f]] else diff
  {
  }

  lemma LiveKeys(ev: Eval)
    ensures LiveFields(ev).Keys == {TrActivated, TrBest, TriggerPx, LimitPx}
  {
  }

  /** The hash written at placement. */
  function Placed(p: Params, mark: real): Hash {
    var ev := Evaluate(p, WAITING, mark);
    map[LimitPx := LiveFields(ev)[LimitPx], TriggerPx := LiveFields(ev)[TriggerPx]] + FieldsFrom(p, ev.state)
  }

  /** A hash that says activated without a best price; an evaluation of it would throw. */
  predicate IsBroken(h: Hash) {
    ReadState(h).activated && ReadState(h).best.None?
  }

  /** One tick works from the stored fields alone. */
  function Tick(isBuy: bool, h: Hash, mark: real): Hash {
    if IsBroken(h) then h
    else Persist(h, Evaluate(ReadParams(isBuy, h), ReadState(h), mark))
  }

  // ---- Round trip ----

  /** The hash stores these parameters and this state, whatever else it holds. */
  predicate Stores(h: Hash, p: Params, s: State) {
    forall f :: f in FieldsFrom(p, s) ==> Get(h, f) == FieldsFrom(p, s)[f]
  }

  /** Reading back what was written gives the parameters and the state exactly. */
  lemma ReadsBack(h: Hash, p: Params, s: State)
    requires Stores(h, p, s)
    ensures ReadParams(p.isBuy, h) == p
    ensures ReadState(h) == s
  {
    var fields := FieldsFrom(p, s);
    assert TrKind in fields && TrValue in fields && TrActPx in fields;
    assert TrActivated in fields && TrBest in fields && TrSzDec in fields;
    assert (p.szDecimals as real).Floor == p.szDecimals;
    assert p.retracement.Distance? ==> (p.retracement.steps as real).Floor == p.retracement.steps;
  }

  lemma PersistReads(h: Hash, ev: Eval, f: Field)
    ensures Get(Persist(h, ev), f) == if f in LiveFields(ev) then LiveFields(ev)[f] else Get(h, f)
  {
  }

  /** The hash also shows this trigger, empty while there is none, and this limit. */
  predicate Shows(h: Hash, ev: Eval) {
    && Get(h, TriggerPx) == (if ev.triggerPx.Some? then Number(ev.triggerPx.value as real) else Empty)
    && Get(h, LimitPx) == Number(ev.limitPx as real)
  }

  lemma PersistStores(h: Hash, p: Params, s: State, ev: Eval)
    requires Stores(h, p, s)
    ensures Stores(Persist(h, ev), p, ev.state) && Shows(Persist(h, ev), ev)
  {
    var h', fields' := Persist(h, ev), FieldsFrom(p, ev.state);
    forall f | f in fields' ensures Get(h', f) == fields'[f] {
      PersistReads(h, ev, f);
      assert f in FieldsFrom(p, s);
    }
    PersistReads(h, ev, TriggerPx);
    PersistReads(h, ev, LimitPx);
  }

  lemma PlacedStores(p: Params, mark: real)
    ensures var ev := Evaluate(p, WAITING, mark);
      Stores(Placed(p, mark), p, ev.state) && Shows(Placed(p, mark), ev)
  {
  }

  // ---- Runs over the store ----

  lemma PlacedRuns(p: Params, mark: real)
    ensures Stores(Placed(p, mark), p, After(p, [mark])) && Shows(Placed(p, mark), LastEval(p, [mark]))
  {
    PlacedStores(p, mark);
    assert [mark][..0] == [];
  }

  lemma {:induction false} TickRuns(p: Params, h: Hash, marks: seq<real>)
    requires |marks| > 1 && Stores(h, p, After(p, marks[..|marks| - 1]))
    ensures !IsBroken(h)
    ensures
      var h' := Tick(p.isBuy, h, marks[|marks| - 1]);
      Stores(h', p, After(p, marks)) && Shows(h', LastEval(p, marks))
  {
    var s := After(p, marks[..|marks| - 1]);
    ReadsBack(h, p, s);
    PersistStores(h, p, s, LastEval(p, marks));
    hide Evaluate, Persist, Stores, Shows, ReadState, ReadParams;
  }

  /** The stored hash after a run of marks, the first seen at placement, each later tick starting from
      nothing but the hash: a restart between any two ticks changes nothing. */
  function StoredAfter(p: Params, marks: seq<real>): Hash
    requires |marks| > 0
  {
    var n := |marks| - 1;
    if n == 0 then Placed(p, marks[0])
    else Tick(p.isBuy, StoredAfter(p, marks[..n]), marks[n])
  }

  /** The stored fields follow the automaton through every run: they are never broken, the parameters do
      not change, the state is that of the history, trigger and limit those of the last evaluation. */
  lemma {:induction false} StoreFollowsAutomaton(p: Params, marks: seq<real>)
    requires |marks| > 0
    ensures
      var h := StoredAfter(p, marks);
      && ReadParams(p.isBuy, h) == p
      && ReadState(h) == After(p, marks)
      && Stores(h, p, After(p, marks))
      && Shows(h, LastEval(p, marks))
    decreases |marks|
  {
    var n := |marks| - 1;
    hide Placed, Tick, Stores, Shows, After, LastEval, ReadParams, ReadState;
    if n == 0 {
      PlacedRuns(p, marks[0]);
      assert marks == [marks[0]];
    } else {
      StoreFollowsAutomaton(p, marks[..n]);
      TickRuns(p, StoredAfter(p, marks[..n]), marks);
    }
    ReadsBack(StoredAfter(p, marks), p, After(p, marks));
  }
}
