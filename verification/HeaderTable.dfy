/** The header tables of HPACK: a vector of header lines with two hash indexes. */
module HeaderTable {
  import opened Basics

  type Field = nat

  const IGNORE_THIS: Field := 0

  datatype HeaderLine = HeaderLine(field: Field, value: string)

  /** The state of `map_table_t`: the lines, an index of lines, and for every field its
      first position and its count. */
  datatype Table = Table(entries: seq<HeaderLine>, values: map<HeaderLine, nat>, fields: map<Field, (nat, nat)>)

  const EMPTY := Table([], map[], map[])

  // ----- what the indexes should say -----

  function CountOf(entries: seq<HeaderLine>, f: Field): (n: nat)
    ensures n > 0 <==> exists i :: 0 <= i < |entries| && entries[i].field == f
  {
    if entries == [] then 0 else
      var init, last := entries[..|entries| - 1], entries[|entries| - 1];
      CountOf(init, f) + if last.field == f then 1 else 0
  }

  /** The position of the first line of a field, or the length. */
  function FirstOf(entries: seq<HeaderLine>, f: Field): (k: nat)
    ensures k <= |entries| && (k < |entries| ==> entries[k].field == f)
    ensures forall i :: 0 <= i < k ==> entries[i].field != f
  {
    if entries == [] then 0 else
      var init := entries[..|entries| - 1];
      var k := FirstOf(init, f);
      if k < |init| || entries[k].field == f then k else k + 1
  }

  ghost predicate FieldAgrees(t: Table, f: Field) {
    && (f in t.fields <==> CountOf(t.entries, f) > 0)
    && (f in t.fields ==> t.fields[f] == (FirstOf(t.entries, f), CountOf(t.entries, f)))
  }

  predicate HitAgrees(t: Table, e: HeaderLine)
    requires e in t.values
  {
    e.value != "" && t.values[e] < |t.entries| && t.entries[t.values[e]] == e
  }

  /** Both indexes agree with the lines. */
  ghost predicate Agrees(t: Table) {
    && (forall f :: FieldAgrees(t, f))
    && (forall e :: e in t.values ==> HitAgrees(t, e))
  }

  /** Every line with a value is found. */
  ghost predicate Complete(t: Table) {
    forall i :: 0 <= i < |t.entries| && t.entries[i].value != "" ==> t.entries[i] in t.values
  }

  ghost predicate NoDuplicates(entries: seq<HeaderLine>) {
    forall i, j :: 0 <= i < j < |entries| && entries[i].value != "" ==> entries[i] != entries[j]
  }

  // ----- the operations, on values -----

  function Pushed(t: Table, e: HeaderLine): Table {
    var index := |t.entries|;
    Table(
      t.entries + [e],
      if e.value != "" && e !in t.values then t.values[e := index] else t.values,
      t.fields[e.field := if e.field in t.fields then (t.fields[e.field].0, t.fields[e.field].1 + 1) else (index, 1)])
  }

  /** `pop_back`; a field that is missing from its index is an error in the source. */
  function Popped(t: Table): Option<Table>
    requires t.entries != []
  {
    var e := t.entries[|t.entries| - 1];
    if e.field !in t.fields then None else
      var (first, count) := t.fields[e.field];
      Some(Table(
        t.entries[..|t.entries| - 1],
        if e.value != "" then t.values - {e} else t.values,
        if count == 1 then t.fields - {e.field} else t.fields[e.field := (first, if count == 0 then 0 else count - 1)]))
  }

  function PoppedTo(t: Table, n: nat): Option<Table>
    decreases |t.entries|
  {
    if |t.entries| <= n then Some(t) else
      match Popped(t)
      case None => None
      case Some(rest) => if |rest.entries| < |t.entries| then PoppedTo(rest, n) else None
  }

  // ----- each operation keeps the agreement -----

  lemma PushAgrees(t: Table, e: HeaderLine)
    requires Agrees(t)
    ensures Agrees(Pushed(t, e))
  {
    var u := Pushed(t, e);
    assert u.entries[..|u.entries| - 1] == t.entries;
    forall f ensures FieldAgrees(u, f) {
      assert FieldAgrees(t, f);
    }
    forall x | x in u.values ensures HitAgrees(u, x) {
      if x in t.values { assert HitAgrees(t, x); }
    }
  }

  lemma FirstOfShorter(entries: seq<HeaderLine>, f: Field)
    requires entries != [] && CountOf(entries[..|entries| - 1], f) > 0
    ensures FirstOf(entries, f) == FirstOf(entries[..|entries| - 1], f)
  {
  }

  lemma PopFieldAgrees(t: Table, f: Field)
    requires t.entries != [] && Popped(t).Some?
    requires FieldAgrees(t, f)
    ensures FieldAgrees(Popped(t).value, f)
  {
    if CountOf(t.entries[..|t.entries| - 1], f) > 0 { FirstOfShorter(t.entries, f); }
  }

  lemma PopAgrees(t: Table)
    requires Agrees(t) && t.entries != []
    ensures Popped(t).Some? && Agrees(Popped(t).value)
  {
    assert FieldAgrees(t, t.entries[|t.entries| - 1].field);
    var u := Popped(t).value;
    forall f ensures FieldAgrees(u, f) {
      assert FieldAgrees(t, f);
      PopFieldAgrees(t, f);
    }
    forall x | x in u.values ensures HitAgrees(u, x) {
      assert HitAgrees(t, x);
    }
  }

  lemma {:induction false} PopToAgrees(t: Table, n: nat)
    requires Agrees(t)
    ensures PoppedTo(t, n).Some? && Agrees(PoppedTo(t, n).value)
    ensures PoppedTo(t, n).value.entries == t.entries[..if n < |t.entries| then n else |t.entries|]
    decreases |t.entries|
  {
    if |t.entries| <= n {
    } else {
      PopAgrees(t);
      PopToAgrees(Popped(t).value, n);
    }
  }

  // ----- when every line is found -----

  lemma PushKeepsComplete(t: Table, e: HeaderLine)
    requires Complete(t)
    ensures Complete(Pushed(t, e))
  {
  }

  /** Popping loses the way to another line exactly when the popped line has a value and
      occurs earlier. */
  lemma PopKeepsCompleteIff(t: Table)
    requires Agrees(t) && Complete(t) && t.entries != []
    ensures Popped(t).Some?
    ensures Complete(Popped(t).value)
       <==> var n := |t.entries| - 1; t.entries[n].value == "" || t.entries[n] !in t.entries[..n]
  {
    PopAgrees(t);
    var u, n := Popped(t).value, |t.entries| - 1;
    forall i | 0 <= i < n ensures u.entries[i] == t.entries[i] && u.entries[i] in t.entries[..n] {
    }
    if t.entries[n].value != "" && t.entries[n] in t.entries[..n] {
      var i :| 0 <= i < n && t.entries[..n][i] == t.entries[n];
      assert u.entries[i] !in u.values;
    }
  }

  /** A line pushed twice and popped once is still there and no longer found. */
  lemma DuplicateIsLost(e: HeaderLine)
    requires e.value != ""
    ensures var t := Popped(Pushed(Pushed(EMPTY, e), e));
      t.Some? && t.value.entries == [e] && e !in t.value.values
  {
    EmptyAgrees();
    PushAgrees(EMPTY, e);
    PushAgrees(Pushed(EMPTY, e), e);
    PopAgrees(Pushed(Pushed(EMPTY, e), e));
  }

  lemma EmptyAgrees()
    ensures Agrees(EMPTY) && Complete(EMPTY) && NoDuplicates(EMPTY.entries)
  {
  }

  // ----- runs -----

  /** The public operations; the first two are inherited by the dynamic table. */
  datatype Op = PushBack(line: HeaderLine) | PopBack | Clear | Insert(line: HeaderLine) | UpdateSize(size: nat)

  datatype State = State(table: Table, maxSize: nat)

  /** One operation of `dynamic_table_t`; popping an empty table is the caller's error. */
  function Apply(s: State, op: Op): Option<State> {
    match op
    case PushBack(e) => Some(s.(table := Pushed(s.table, e)))
    case PopBack => if s.table.entries == [] then None else Wrap(Popped(s.table), s.maxSize)
    case Clear => Some(s.(table := EMPTY))
    case Insert(e) => Some(s.(table := Pushed(if |s.table.entries| >= s.maxSize then EMPTY else s.table, e)))
    case UpdateSize(n) => if s.maxSize == n then Some(s) else Wrap(PoppedTo(s.table, n), n)
  }

  function Wrap(t: Option<Table>, maxSize: nat): Option<State> {
    match t case None => None case Some(table) => Some(State(table, maxSize))
  }

  predicate Callable(s: State, op: Op) {
    op.PopBack? ==> s.table.entries != []
  }

  /** The states that a sequence of legal calls leads to. */
  ghost predicate Leads(s: State, ops: seq<Op>, s': State)
    decreases |ops|
  {
    if ops == [] then s == s' else
      && Callable(s, ops[0]) && Apply(s, ops[0]).Some?
      && Leads(Apply(s, ops[0]).value, ops[1..], s')
  }

  lemma StepAgrees(s: State, op: Op)
    requires Agrees(s.table) && Callable(s, op)
    ensures Apply(s, op).Some? && Agrees(Apply(s, op).value.table)
  {
    EmptyAgrees();
    match op
    case PushBack(e) => PushAgrees(s.table, e);
    case PopBack => PopAgrees(s.table);
    case Clear =>
    case Insert(e) => PushAgrees(if |s.table.entries| >= s.maxSize then EMPTY else s.table, e);
    case UpdateSize(n) => PopToAgrees(s.table, n);
  }

  /** After any legal calls both indexes agree with the lines, and no call fails. */
  lemma {:induction false} RunAgrees(s: State, ops: seq<Op>, s': State)
    requires Agrees(s.table) && Leads(s, ops, s')
    ensures Agrees(s'.table) && forall op :: Callable(s', op) ==> Apply(s', op).Some?
    decreases |ops|
  {
    if ops == [] {
      forall op | Callable(s', op) ensures Apply(s', op).Some? { StepAgrees(s', op); }
    } else {
      StepAgrees(s, ops[0]);
      RunAgrees(Apply(s, ops[0]).value, ops[1..], s');
    }
  }

  /** The line that an operation adds, if it has a value, is not in the table. */
  predicate AddsFresh(s: State, op: Op) {
    (op.PushBack? || op.Insert?) && op.line.value != "" ==> op.line !in s.table.entries
  }

  ghost predicate AddsOnlyFresh(s: State, ops: seq<Op>)
    decreases |ops|
  {
    ops == [] || (AddsFresh(s, ops[0]) &&
      match Apply(s, ops[0]) case None => true case Some(next) => AddsOnlyFresh(next, ops[1..]))
  }

  ghost predicate Found(t: Table) {
    Agrees(t) && Complete(t) && NoDuplicates(t.entries)
  }

  lemma PushFound(t: Table, e: HeaderLine)
    requires Found(t) && (e.value != "" ==> e !in t.entries)
    ensures Found(Pushed(t, e))
  {
    PushAgrees(t, e);
    PushKeepsComplete(t, e);
  }

  lemma PopFound(t: Table)
    requires Found(t) && t.entries != []
    ensures Popped(t).Some? && Found(Popped(t).value)
  {
    PopAgrees(t);
    PopKeepsCompleteIff(t);
  }

  lemma {:induction false} PopToFound(t: Table, n: nat)
    requires Found(t)
    ensures PoppedTo(t, n).Some? && Found(PoppedTo(t, n).value)
    decreases |t.entries|
  {
    if |t.entries| <= n {
    } else {
      PopFound(t);
      PopToFound(Popped(t).value, n);
    }
  }

  lemma StepFound(s: State, op: Op)
    requires Found(s.table) && Callable(s, op) && AddsFresh(s, op)
    ensures Apply(s, op).Some? && Found(Apply(s, op).value.table)
  {
    EmptyAgrees();
    match op
    case PushBack(e) => PushFound(s.table, e);
    case PopBack => PopFound(s.table);
    case Clear =>
    case Insert(e) => PushFound(if |s.table.entries| >= s.maxSize then EMPTY else s.table, e);
    case UpdateSize(n) => PopToFound(s.table, n);
  }

  /** As long as no line is added that is already there, every line with a value is found. */
  lemma {:induction false} RunFound(s: State, ops: seq<Op>, s': State)
    requires Found(s.table) && Leads(s, ops, s') && AddsOnlyFresh(s, ops)
    ensures Found(s'.table)
    decreases |ops|
  {
    if ops == [] {
    } else {
      StepFound(s, ops[0]);
      RunFound(Apply(s, ops[0]).value, ops[1..], s');
    }
  }

  // ----- which lines an operation leaves -----

  /** The lines and the bound after each operation. */
  lemma StepLines(s: State, op: Op)
    requires Agrees(s.table) && Callable(s, op)
    ensures Apply(s, op).Some?
    ensures var was, r := s.table.entries, Apply(s, op).value; var lines := r.table.entries;
      && r.maxSize == (if op.UpdateSize? then op.size else s.maxSize)
      && (op.PushBack? ==> lines == was + [op.line])
      && (op.PopBack? ==> was != [] && lines == was[..|was| - 1])
      && (op.Clear? ==> lines == [] && r.table.values == map[] && r.table.fields == map[])
      && (op.Insert? ==> lines == (if |was| < s.maxSize then was else []) + [op.line])
      && (op.UpdateSize? ==> lines == if op.size == s.maxSize || |was| <= op.size then was else was[..op.size])
  {
    StepAgrees(s, op);
    if op.UpdateSize? { PopToAgrees(s.table, op.size); }
  }


  /** Every line of `t` that is found, and every field, is found in `u` where it was. */
  ghost predicate KeepsHits(t: Table, u: Table) {
    && (forall x :: x in t.values ==> x in u.values && u.values[x] == t.values[x])
    && (forall f :: f in t.fields ==> f in u.fields && u.fields[f].0 == t.fields[f].0)
  }

  /** With room, the new line stands behind the earlier ones, and they are found where they
      were; without room it stands alone. */
  lemma InsertKeeps(s: State, e: HeaderLine)
    ensures var r := Apply(s, Op.Insert(e));
      && r.Some? && r.value.maxSize == s.maxSize
      && (|s.table.entries| < s.maxSize ==>
            r.value.table.entries == s.table.entries + [e] && KeepsHits(s.table, r.value.table))
      && (|s.table.entries| >= s.maxSize ==>
            r.value.table.entries == [e] && forall x :: x in r.value.table.values ==> x == e)
      && (e.value != "" ==> e in r.value.table.values)
  {
  }

  /** An inherited `push_back` does the same at any size. */
  lemma PushKeeps(t: Table, e: HeaderLine)
    ensures Pushed(t, e).entries == t.entries + [e] && KeepsHits(t, Pushed(t, e))
    ensures e.value != "" ==> e in Pushed(t, e).values
  {
  }

  /** Popping takes the last line out of the index and leaves every other hit. */
  lemma PopKeeps(t: Table)
    requires t.entries != [] && Popped(t).Some?
    ensures var u, last := Popped(t).value, t.entries[|t.entries| - 1];
      && u.entries + [last] == t.entries
      && (last.value != "" ==> last !in u.values)
      && forall x :: x in t.values && (x != last || last.value == "") ==> x in u.values && u.values[x] == t.values[x]
  {
  }

  function Inserts(lines: seq<HeaderLine>): (ops: seq<Op>)
    ensures |ops| == |lines|
  {
    seq(|lines|, i requires 0 <= i < |lines| => Op.Insert(lines[i]))
  }

  /** How many of `n` lines a table of size `maxSize` holds. */
  function Held(n: nat, maxSize: nat): nat {
    if n == 0 then 0 else (n - 1) % Max(1, maxSize) + 1
  }

  lemma HeldRestarts(n: nat, maxSize: nat)
    requires n > 0
    ensures Held(Max(1, maxSize) + n, maxSize) == Held(n, maxSize)
    ensures Held(n, maxSize) <= n
  {
    var size := Max(1, maxSize);
    var q, r := (n - 1) / size, (n - 1) % size;
    assert n - 1 == q * size + r;
    assert (q + 1) * size == q * size + size;
    DivisionIs(q + 1, size, r);
    assert r <= n - 1 by { assert q * size >= 0; }
  }

  lemma HeldAll(n: nat, maxSize: nat)
    requires n <= Max(1, maxSize)
    ensures Held(n, maxSize) == n
  {
  }

  lemma {:induction false} InsertsHold(s: State, lines: seq<HeaderLine>, s': State)
    requires Bounded(s) && Leads(s, Inserts(lines), s')
    ensures s'.maxSize == s.maxSize
    ensures var all := s.table.entries + lines; var k := Held(|all|, s.maxSize);
      k <= |all| && s'.table.entries == all[|all| - k..]
    decreases |lines|
  {
    var all := s.table.entries + lines;
    if lines == [] {
      HeldAll(|all|, s.maxSize);
    } else {
      var next := Apply(s, Op.Insert(lines[0])).value;
      InsertKeeps(s, lines[0]);
      assert Inserts(lines)[1..] == Inserts(lines[1..]);
      InsertsHold(next, lines[1..], s');
      var shorter := next.table.entries + lines[1..];
      if |s.table.entries| == Max(1, s.maxSize) {
        assert shorter == lines;
        HeldRestarts(|lines|, s.maxSize);
      } else {
        assert shorter == all;
      }
    }
  }

  /** A table of size m that was empty holds, after n > 0 inserts, the last
      (n - 1) % max(1, m) + 1 of the lines inserted, in order. */
  lemma InsertsFromEmpty(maxSize: nat, lines: seq<HeaderLine>, s: State)
    requires Leads(State(EMPTY, maxSize), Inserts(lines), s) && lines != []
    ensures var n := |lines|; var held := (n - 1) % (if maxSize == 0 then 1 else maxSize) + 1;
      held <= n && s.table.entries == lines[n - held..]
  {
    InsertsHold(State(EMPTY, maxSize), lines, s);
    assert EMPTY.entries + lines == lines;
  }

  predicate Bounded(s: State) {
    |s.table.entries| <= Max(1, s.maxSize)
  }

  /** The size bound survives every operation of its own, and an inherited `push_back`
      exactly when there was room. */
  lemma StepBounded(s: State, op: Op)
    requires Agrees(s.table) && Bounded(s) && Callable(s, op)
    ensures Apply(s, op).Some?
    ensures Bounded(Apply(s, op).value) <==> (op.PushBack? ==> |s.table.entries| < Max(1, s.maxSize))
  {
    StepAgrees(s, op);
    if op.UpdateSize? {
      PopToAgrees(s.table, op.size);
    }
  }

  lemma {:induction false} RunBounded(s: State, ops: seq<Op>, s': State)
    requires Agrees(s.table) && Bounded(s) && Leads(s, ops, s')
    requires forall i :: 0 <= i < |ops| ==> !ops[i].PushBack?
    ensures Bounded(s')
    decreases |ops|
  {
    if ops == [] {
    } else {
      StepAgrees(s, ops[0]);
      StepBounded(s, ops[0]);
      RunBounded(Apply(s, ops[0]).value, ops[1..], s');
    }
  }

  // ----- the classes -----

  class MapTable {
    var entries: seq<HeaderLine>
    var entryValueMap: map<HeaderLine, nat>
    var entryMap: map<Field, (nat, nat)>

    function Contents(): Table
      reads this
    {
      Table(entries, entryValueMap, entryMap)
    }

    ghost predicate Valid()
      reads this
    {
      Agrees(Contents())
    }

    constructor ()
      ensures Valid() && Contents() == EMPTY
    {
      entries, entryValueMap, entryMap := [], map[], map[];
    }

    /** `operator[](index)` */
    method At(index: nat) returns (r: HeaderLine)
      ensures r == if index < |entries| then entries[index] else HeaderLine(IGNORE_THIS, "")
    {
      if index >= |entries| {
        return HeaderLine(IGNORE_THIS, "");
      }
      r := entries[index];
    }

    /** `operator[](header_line)`; -1 when the line is not found. */
    method Find(line: HeaderLine) returns (r: int)
      requires Valid()
      ensures r == -1 || (0 <= r < |entries| && entries[r] == line)
      ensures Complete(Contents()) ==> (r == -1 <==> line.value == "" || line !in entries)
    {
      if line !in entryValueMap {
        return -1;
      }
      assert HitAgrees(Contents(), line);
      r := entryValueMap[line];
    }

    /** `operator[](field)`; the first line of the field, or -1. */
    method FindField(field: Field) returns (r: int)
      requires Valid()
      ensures r == -1 ==> forall i :: 0 <= i < |entries| ==> entries[i].field != field
      ensures r != -1 ==> 0 <= r < |entries| && entries[r].field == field
      ensures forall i :: 0 <= i < r ==> entries[i].field != field
    {
      assert FieldAgrees(Contents(), field);
      if field !in entryMap {
        return -1;
      }
      r := entryMap[field].0;
    }

    method PushBack(line: HeaderLine)
      requires Valid()
      modifies this
      ensures Valid() && Contents() == Pushed(old(Contents()), line)
    {
      PushAgrees(Contents(), line);
      entries := entries + [line];
      var index := |entries| - 1;
      if line.value != "" {
        if line !in entryValueMap {
          entryValueMap := entryValueMap[line := index];
        }
      }
      if line.field !in entryMap {
        entryMap := entryMap[line.field := (index, 1)];
      } else {
        var (first, count) := entryMap[line.field];
        entryMap := entryMap[line.field := (first, count + 1)];
      }
    }

    method PopBack()
      requires Valid() && entries != []
      modifies this
      ensures Valid() && Some(Contents()) == Popped(old(Contents()))
    {
      PopAgrees(Contents());
      var line := entries[|entries| - 1];
      assert FieldAgrees(Contents(), line.field);
      entries := entries[..|entries| - 1];
      if line.value != "" {
        entryValueMap := entryValueMap - {line};
      }
      var (first, count) := entryMap[line.field];
      if count == 1 {
        entryMap := entryMap - {line.field};
      } else {
        entryMap := entryMap[line.field := (first, count - 1)];
      }
    }

    method Clear()
      modifies this
      ensures Valid() && Contents() == EMPTY
    {
      entries, entryValueMap, entryMap := [], map[], map[];
    }
  }

  /** `dynamic_table_t`; the inherited table is a part of it. */
  class DynamicTable {
    const table: MapTable
    var maxSize: nat

    ghost predicate Valid()
      reads this, table
    {
      table.Valid()
    }

    function Current(): State
      reads this, table
    {
      State(table.Contents(), maxSize)
    }

    constructor (maxSize: nat)
      ensures Valid() && fresh(table) && Current() == State(EMPTY, maxSize) && Bounded(Current())
    {
      table := new MapTable();
      this.maxSize := maxSize;
    }

    /** `update_size`: what remains are the lines added first. */
    method UpdateSize(newSize: nat)
      requires Valid()
      modifies this, table
      ensures Valid() && Some(Current()) == Apply(old(Current()), Op.UpdateSize(newSize))
      ensures maxSize == newSize
      ensures old(maxSize) != newSize && newSize < old(|table.entries|) ==> table.entries == old(table.entries[..newSize])
    {
      if maxSize == newSize {
        return;
      }
      maxSize := newSize;
      PopToAgrees(table.Contents(), newSize);
      while newSize < |table.entries|
        invariant table.Valid() && maxSize == newSize
        invariant PoppedTo(table.Contents(), newSize) == PoppedTo(old(table.Contents()), newSize)
        decreases |table.entries|
      {
        table.PopBack();
      }
    }

    method Insert(line: HeaderLine)
      requires Valid()
      modifies this, table
      ensures Valid() && Some(Current()) == Apply(old(Current()), Op.Insert(line))
    {
      EmptyAgrees();
      if |table.entries| >= maxSize {
        table.Clear();
      }
      table.PushBack(line);
    }
  }
}
