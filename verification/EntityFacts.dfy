/**
 The entity-fact table and storeEntityFacts: rows are unique by (tenant, entity, relation, value, memory); storing a row
 that is there keeps it as it is, closed or not; an invalidation closes every active row of the same tenant, entity and
 relation with another value.
 */
module EntityFacts {

  datatype Fact = Fact(tenant: string, entity: string, relation: string, value: string, memory: nat)

  /** `active` stands for: no valid_to and no invalidated_by_fact_id. */
  datatype Row = Row(fact: Fact, active: bool)

  predicate SameSlot(a: Fact, b: Fact) {
    a.tenant == b.tenant && a.entity == b.entity && a.relation == b.relation
  }

  // ----- the two table operations, newest row first

  function Put(rows: seq<Row>, f: Fact): (r: seq<Row>)
    ensures exists row :: row in r && row.fact == f
  {
    if exists row | row in rows :: row.fact == f then rows
    else
      assert ([Row(f, true)] + rows)[0].fact == f;
      [Row(f, true)] + rows
  }

  function PutAll(rows: seq<Row>, fs: seq<Fact>): seq<Row>
    decreases |fs|
  {
    if fs == [] then rows else Put(PutAll(rows, fs[..|fs| - 1]), fs[|fs| - 1])
  }

  function CloseRow(row: Row, winner: Fact): Row {
    if SameSlot(row.fact, winner) && row.fact.value != winner.value then row.(active := false) else row
  }

  function Close(rows: seq<Row>, winner: Fact): (r: seq<Row>)
    ensures |r| == |rows| && forall i | 0 <= i < |rows| :: r[i] == CloseRow(rows[i], winner)
  {
    seq(|rows|, i requires 0 <= i < |rows| => CloseRow(rows[i], winner))
  }

  // ----- what one call of storeEntityFacts asks of the table, in order

  datatype Op = Write(facts: seq<Fact>) | Invalidate(winner: Fact)

  /** hasBatch: the table stores many facts in one transaction. invalidates: singleton invalidation is on. */
  datatype Config = Config(hasBatch: bool, invalidates: bool, singleton: string -> bool)

  function Do(rows: seq<Row>, op: Op): seq<Row> {
    match op
    case Write(fs) => PutAll(rows, fs)
    case Invalidate(winner) => Close(rows, winner)
  }

  function Exec(rows: seq<Row>, ops: seq<Op>): seq<Row>
    decreases |ops|
  {
    if ops == [] then rows else Do(Exec(rows, ops[..|ops| - 1]), ops[|ops| - 1])
  }

  function Invalidations(fs: seq<Fact>, c: Config): seq<Op>
    decreases |fs|
  {
    if fs == [] || !c.invalidates then []
    else
      var f := fs[|fs| - 1];
      Invalidations(fs[..|fs| - 1], c) + if c.singleton(f.relation) then [Invalidate(f)] else []
  }

  function OneByOne(fs: seq<Fact>, c: Config): seq<Op>
    decreases |fs|
  {
    if fs == [] then []
    else OneByOne(fs[..|fs| - 1], c) + Single(fs[|fs| - 1], c)
  }

  function Single(f: Fact, c: Config): (ops: seq<Op>)
    ensures |ops| > 0
  {
    [Write([f])] + if c.invalidates && c.singleton(f.relation) then [Invalidate(f)] else []
  }

  /** What a call got through when the table refused its calls after the first `calls`. */
  ghost predicate BrokeOff(ran: seq<Op>, all: seq<Op>, calls: nat) {
    ran <= all && |ran| == if calls < |all| then calls else |all|
  }

  function Calls(unique: seq<Fact>, c: Config): seq<Op> {
    if unique == [] then []
    else if c.hasBatch then [Write(unique)] + Invalidations(unique, c)
    else OneByOne(unique, c)
  }

  // ----- the table and the code

  class EntityTable {
    var rows: seq<Row>

    constructor ()
      ensures rows == []
    {
      rows := [];
    }

    method Store(f: Fact)
      modifies this
      ensures rows == Put(old(rows), f)
      ensures rows == if exists row | row in old(rows) :: row.fact == f then old(rows) else [Row(f, true)] + old(rows)
    {
      var i := 0;
      while i < |rows|
        invariant 0 <= i <= |rows| && rows == old(rows)
        invariant forall j | 0 <= j < i :: rows[j].fact != f
      {
        if rows[i].fact == f {
          return;
        }
        i := i + 1;
      }
      rows := [Row(f, true)] + rows;
    }

    method StoreBatch(fs: seq<Fact>)
      modifies this
      ensures rows == PutAll(old(rows), fs)
    {
      for i := 0 to |fs|
        invariant rows == PutAll(old(rows), fs[..i])
      {
        Store(fs[i]);
        assert fs[..i + 1][..i] == fs[..i];
      }
      assert fs[..|fs|] == fs;
    }

    method InvalidateEntityRelation(winner: Fact)
      modifies this
      ensures rows == Close(old(rows), winner)
      ensures |rows| == |old(rows)| && forall i | 0 <= i < |rows| ::
                var was := old(rows)[i];
                && rows[i].fact == was.fact
                && (rows[i].active <==>
                    && was.active
                    && !(was.fact.tenant == winner.tenant && was.fact.entity == winner.entity && was.fact.relation == winner.relation
                         && was.fact.value != winner.value))
    {
      for i := 0 to |rows|
        invariant |rows| == |old(rows)|
        invariant forall j | 0 <= j < |rows| :: rows[j] == if j < i then CloseRow(old(rows)[j], winner) else old(rows)[j]
      {
        if rows[i].active && SameSlot(rows[i].fact, winner) && rows[i].fact.value != winner.value {
          rows := rows[i := rows[i].(active := false)];
        }
      }
    }

    /** `calls` table calls succeed before one fails; `ran` is what got through and `spare` what is left of them. */
    method InvalidateSuperseded(fs: seq<Fact>, c: Config, calls: nat) returns (ok: bool, spare: nat, ghost ran: seq<Op>)
      modifies this
      ensures BrokeOff(ran, Invalidations(fs, c), calls) && rows == Exec(old(rows), ran)
      ensures spare == calls - |ran| && ok == (calls >= |Invalidations(fs, c)|)
    {
      ok, spare, ran := true, calls, [];
      if !c.invalidates || |fs| == 0 {
        return;
      }
      for i := 0 to |fs|
        invariant ok && ran == Invalidations(fs[..i], c) && spare == calls - |ran|
        invariant rows == Exec(old(rows), ran)
      {
        InvalidationsAt(fs, i, c);
        if c.singleton(fs[i].relation) {
          if spare == 0 {
            return false, 0, ran;
          }
          spare := spare - 1;
          InvalidateEntityRelation(fs[i]);
          ExecLast(old(rows), ran, Invalidate(fs[i]));
          ran := ran + [Invalidate(fs[i])];
        }
      }
      assert fs[..|fs|] == fs;
    }

    method StoreOne(f: Fact, c: Config, calls: nat) returns (ok: bool, spare: nat, ghost ran: seq<Op>)
      modifies this
      ensures BrokeOff(ran, Single(f, c), calls) && rows == Exec(old(rows), ran)
      ensures spare == calls - |ran| && ok == (calls >= |Single(f, c)|)
    {
      if calls == 0 {
        return false, 0, [];
      }
      Store(f);
      PutOne(old(rows), f);
      ok, spare, ran := InvalidateSuperseded([f], c, calls - 1);
      InvalidationsOfOne(f, c);
      ExecAppend(old(rows), [Write([f])], ran);
      ran := [Write([f])] + ran;
    }

    method StoreOneByOne(unique: seq<Fact>, c: Config, calls: nat) returns (ok: bool, ghost ran: seq<Op>)
      modifies this
      ensures BrokeOff(ran, OneByOne(unique, c), calls) && rows == Exec(old(rows), ran)
      ensures ok == (calls >= |OneByOne(unique, c)|)
    {
      var spare := calls;
      ran := [];
      for i := 0 to |unique|
        invariant ran == OneByOne(unique[..i], c) && spare == calls - |ran|
        invariant rows == Exec(old(rows), ran)
      {
        OneByOneAt(unique, i, c);
        ghost var more;
        ok, spare, more := StoreOne(unique[i], c, spare);
        ExecAppend(old(rows), ran, more);
        ran := ran + more;
        if !ok {
          return;
        }
      }
      assert unique[..|unique|] == unique;
      ok := true;
    }

    method StoreInBatch(unique: seq<Fact>, c: Config, calls: nat) returns (ok: bool, ghost ran: seq<Op>)
      modifies this
      ensures BrokeOff(ran, [Write(unique)] + Invalidations(unique, c), calls) && rows == Exec(old(rows), ran)
      ensures ok == (calls >= 1 + |Invalidations(unique, c)|)
    {
      if calls == 0 {
        return false, [];
      }
      StoreBatch(unique);
      ExecLast(old(rows), [], Write(unique));
      var spare;
      ok, spare, ran := InvalidateSuperseded(unique, c, calls - 1);
      ExecAppend(old(rows), [Write(unique)], ran);
      ran := [Write(unique)] + ran;
    }

    /** storeEntityFacts. */
    method StoreEntityFacts(facts: seq<Fact>, c: Config, idText: nat -> string, calls: nat) returns (ok: bool, ghost ran: seq<Op>)
      modifies this
      ensures BrokeOff(ran, Calls(Unique(facts, idText), c), calls) && rows == Exec(old(rows), ran)
      ensures ok == (calls >= |Calls(Unique(facts, idText), c)|)
    {
      var unique := Deduplicate(facts, idText);
      if |unique| == 0 {
        return true, [];
      }
      if c.hasBatch {
        ok, ran := StoreInBatch(unique, c, calls);
      } else {
        ok, ran := StoreOneByOne(unique, c, calls);
      }
    }
  }

  method Deduplicate(facts: seq<Fact>, idText: nat -> string) returns (unique: seq<Fact>)
    ensures unique == Unique(facts, idText) && KeepsFirsts(facts, unique, idText)
  {
    hide KeepsFirsts, DedupeKey;
    UniqueKeepsFirsts(facts, idText);
    unique := [];
    var seen := {};
    for i := 0 to |facts|
      invariant unique == Unique(facts[..i], idText)
      invariant forall k :: k in seen <==> exists j | 0 <= j < i :: DedupeKey(facts[j], idText) == k
    {
      assert facts[..i + 1][..i] == facts[..i];
      assert forall j | 0 <= j < i :: facts[..i][j] == facts[j];
      var key := DedupeKey(facts[i], idText);
      if key !in seen {
        seen := seen + {key};
        unique := unique + [facts[i]];
      }
    }
    assert facts[..|facts|] == facts;
  }

  /** The text storeEntityFacts tells duplicates by. */
  function DedupeKey(f: Fact, idText: nat -> string): string {
    f.tenant + "|" + f.entity + "|" + f.relation + "|" + f.value + "|" + idText(f.memory)
  }

  function Unique(fs: seq<Fact>, idText: nat -> string): seq<Fact>
    decreases |fs|
  {
    if fs == [] then []
    else
      var earlier := fs[..|fs| - 1];
      var f := fs[|fs| - 1];
      if exists j | 0 <= j < |earlier| :: DedupeKey(earlier[j], idText) == DedupeKey(f, idText)
      then Unique(earlier, idText)
      else Unique(earlier, idText) + [f]
  }

  lemma {:induction false} ExecAppend(rows: seq<Row>, a: seq<Op>, b: seq<Op>)
    ensures Exec(rows, a + b) == Exec(Exec(rows, a), b)
    decreases |b|
  {
    if b == [] {
      assert a + b == a;
    } else {
      ExecAppend(rows, a, b[..|b| - 1]);
      assert (a + b)[..|a + b| - 1] == a + b[..|b| - 1];
    }
  }

  lemma ExecLast(rows: seq<Row>, ops: seq<Op>, op: Op)
    ensures Exec(rows, ops + [op]) == Do(Exec(rows, ops), op)
  {
    assert (ops + [op])[..|ops|] == ops;
  }

  lemma InvalidationsAt(fs: seq<Fact>, i: nat, c: Config)
    requires i < |fs| && c.invalidates
    ensures Invalidations(fs[..i + 1], c)
            == Invalidations(fs[..i], c) + if c.singleton(fs[i].relation) then [Invalidate(fs[i])] else []
    ensures Invalidations(fs[..i + 1], c) <= Invalidations(fs, c)
  {
    assert fs[..i + 1][..i] == fs[..i];
    InvalidationsExtend(fs, i + 1, c);
  }

  lemma InvalidationsOfOne(f: Fact, c: Config)
    ensures [Write([f])] + Invalidations([f], c) == Single(f, c)
  {
    assert [f][..0] == [];
  }

  lemma OneByOneAt(fs: seq<Fact>, i: nat, c: Config)
    requires i < |fs|
    ensures OneByOne(fs[..i + 1], c) == OneByOne(fs[..i], c) + Single(fs[i], c)
    ensures OneByOne(fs[..i + 1], c) <= OneByOne(fs, c)
  {
    assert fs[..i + 1][..i] == fs[..i];
    OneByOneExtend(fs, i + 1, c);
  }

  lemma {:induction false} OneByOneExtend(fs: seq<Fact>, n: nat, c: Config)
    requires n <= |fs|
    ensures OneByOne(fs[..n], c) <= OneByOne(fs, c)
    decreases |fs|
  {
    if n == |fs| {
      assert fs[..n] == fs;
    } else {
      OneByOneExtend(fs[..|fs| - 1], n, c);
      assert fs[..|fs| - 1][..n] == fs[..n];
    }
  }

  lemma {:induction false} InvalidationsExtend(fs: seq<Fact>, n: nat, c: Config)
    requires n <= |fs|
    ensures Invalidations(fs[..n], c) <= Invalidations(fs, c)
    decreases |fs|
  {
    if n == |fs| {
      assert fs[..n] == fs;
    } else {
      InvalidationsExtend(fs[..|fs| - 1], n, c);
      assert fs[..|fs| - 1][..n] == fs[..n];
    }
  }

  // ----- what is active for one tenant, entity and relation

  ghost function ActiveValues(rows: seq<Row>, slot: Fact): set<string> {
    set row | row in rows && row.active && row.fact.tenant == slot.tenant && row.fact.entity == slot.entity
              && row.fact.relation == slot.relation :: row.fact.value
  }

  ghost predicate AtMostOne(values: set<string>) {
    forall v, w | v in values && w in values :: v == w
  }

  ghost predicate Stored(rows: seq<Row>, f: Fact) {
    exists row | row in rows :: row.fact == f
  }

  lemma PutOne(rows: seq<Row>, f: Fact)
    ensures Do(rows, Write([f])) == Put(rows, f)
  {
    assert PutAll(rows, [f][..0]) == rows;
  }

  lemma PutValues(rows: seq<Row>, f: Fact, slot: Fact)
    ensures ActiveValues(Put(rows, f), slot)
            == if SameSlot(f, slot) && !Stored(rows, f) then ActiveValues(rows, slot) + {f.value} else ActiveValues(rows, slot)
  {
    if !Stored(rows, f) {
      var r := [Row(f, true)] + rows;
      forall row ensures row in r <==> row == Row(f, true) || row in rows {
        if row in rows {
          var i :| 0 <= i < |rows| && rows[i] == row;
          assert r[i + 1] == row;
        }
      }
      if SameSlot(f, slot) {
        assert Row(f, true) in r;
      }
    }
  }

  lemma SlotsAgree(f: Fact, winner: Fact, slot: Fact)
    requires SameSlot(f, slot)
    ensures SameSlot(f, winner) <==> SameSlot(winner, slot)
  {
  }

  lemma CloseValues(rows: seq<Row>, winner: Fact, slot: Fact)
    ensures ActiveValues(Close(rows, winner), slot)
            == if SameSlot(winner, slot) then ActiveValues(rows, slot) * {winner.value} else ActiveValues(rows, slot)
  {
    var r := Close(rows, winner);
    forall v | v in ActiveValues(rows, slot) && (SameSlot(winner, slot) ==> v == winner.value)
      ensures v in ActiveValues(r, slot)
    {
      var row :| row in rows && row.active && SameSlot(row.fact, slot) && row.fact.value == v;
      var i :| 0 <= i < |rows| && rows[i] == row;
      SlotsAgree(row.fact, winner, slot);
      assert r[i] == row;
    }
    forall v | v in ActiveValues(r, slot)
      ensures v in ActiveValues(rows, slot) && (SameSlot(winner, slot) ==> v == winner.value)
    {
      var row :| row in r && row.active && SameSlot(row.fact, slot) && row.fact.value == v;
      var i :| 0 <= i < |r| && r[i] == row;
      assert rows[i] == row;
    }
  }

  lemma {:induction false} PutAllValues(rows: seq<Row>, fs: seq<Fact>, slot: Fact)
    ensures ActiveValues(rows, slot) <= ActiveValues(PutAll(rows, fs), slot)
    ensures (forall f | f in fs :: !SameSlot(f, slot)) ==> ActiveValues(PutAll(rows, fs), slot) == ActiveValues(rows, slot)
    decreases |fs|
  {
    if fs != [] {
      PutAllValues(rows, fs[..|fs| - 1], slot);
      PutValues(PutAll(rows, fs[..|fs| - 1]), fs[|fs| - 1], slot);
    }
  }

  /** Which values the writes of a batch leave active: those that were, and those of facts the table did not hold. */
  lemma {:induction false} WrittenValues(rows: seq<Row>, fs: seq<Fact>, slot: Fact, v: string)
    ensures v in ActiveValues(PutAll(rows, fs), slot) <==> v in ActiveValues(rows, slot) || BringsIn(rows, fs, slot, v)
    decreases |fs|
  {
    if fs != [] {
      var n := |fs| - 1;
      var mid := PutAll(rows, fs[..n]);
      WrittenValues(rows, fs[..n], slot, v);
      PutValues(mid, fs[n], slot);
      PutAllStores(rows, fs[..n], fs[n]);
      assert fs == fs[..n] + [fs[n]];
    }
  }

  /** Some fact of the list has the value in the slot and is new to the table. */
  ghost predicate BringsIn(rows: seq<Row>, fs: seq<Fact>, slot: Fact, v: string) {
    exists f | f in fs :: SameSlot(f, slot) && f.value == v && !Stored(rows, f)
  }

  ghost predicate Agree(fs: seq<Fact>, slot: Fact, v: string) {
    forall f | f in fs :: SameSlot(f, slot) ==> f.value == v
  }

  /** Invalidating for each fact in turn keeps only a value every fact of the slot agrees on. */
  lemma {:induction false} InvalidationValues(rows: seq<Row>, fs: seq<Fact>, c: Config, slot: Fact, v: string)
    requires c.invalidates && c.singleton(slot.relation)
    ensures v in ActiveValues(Exec(rows, Invalidations(fs, c)), slot) <==> v in ActiveValues(rows, slot) && Agree(fs, slot, v)
    decreases |fs|
  {
    if fs != [] {
      var f := fs[|fs| - 1];
      var earlier := fs[..|fs| - 1];
      InvalidationValues(rows, earlier, c, slot, v);
      ExecAppend(rows, Invalidations(earlier, c), if c.singleton(f.relation) then [Invalidate(f)] else []);
      var mid := Exec(rows, Invalidations(earlier, c));
      CloseValues(mid, f, slot);
      assert Agree(fs, slot, v) <==> Agree(earlier, slot, v) && (SameSlot(f, slot) ==> f.value == v) by {
        assert forall g :: g in fs <==> g in earlier || g == f;
      }
      if c.singleton(f.relation) {
        assert Exec(mid, [Invalidate(f)]) == Close(mid, f) by { assert [Invalidate(f)][..0] == []; }
      }
    }
  }

  /**
   The batch path: a value of a singleton slot is active exactly when it was, or a new fact brings it in, and all the
   batch's facts of that slot agree on it.
   */
  lemma BatchKeepsAgreedValue(rows: seq<Row>, fs: seq<Fact>, c: Config, slot: Fact, v: string)
    requires c.hasBatch && c.invalidates && c.singleton(slot.relation)
    ensures v in ActiveValues(Exec(rows, Calls(fs, c)), slot)
            <==> (v in ActiveValues(rows, slot) || BringsIn(rows, fs, slot, v)) && Agree(fs, slot, v)
  {
    WrittenValues(rows, fs, slot, v);
    if fs != [] {
      ExecAppend(rows, [Write(fs)], Invalidations(fs, c));
      assert Exec(rows, [Write(fs)]) == PutAll(rows, fs) by { assert [Write(fs)][..0] == []; }
      InvalidationValues(PutAll(rows, fs), fs, c, slot, v);
    }
  }

  lemma SingleExec(rows: seq<Row>, f: Fact, c: Config)
    ensures Exec(rows, Single(f, c)) == if c.invalidates && c.singleton(f.relation) then Close(Put(rows, f), f) else Put(rows, f)
  {
    PutOne(rows, f);
    ExecLast(rows, [], Write([f]));
    ExecLast(rows, [Write([f])], Invalidate(f));
  }

  lemma OneStep(rows: seq<Row>, f: Fact, c: Config, slot: Fact)
    requires c.invalidates && c.singleton(slot.relation)
    ensures ActiveValues(Exec(rows, Single(f, c)), slot)
            == if !SameSlot(f, slot) then ActiveValues(rows, slot)
               else if Stored(rows, f) && f.value !in ActiveValues(rows, slot) then {}
               else {f.value}
  {
    SingleExec(rows, f, c);
    PutValues(rows, f, slot);
    CloseValues(Put(rows, f), f, slot);
  }

  /**
   One by one, from the table and the list alone: nothing of the slot comes after another value, and the value was active
   before them all or a fact of the list was new when it brought it.
   */
  ghost predicate Survives(rows: seq<Row>, fs: seq<Fact>, slot: Fact, v: string)
    decreases |fs|
  {
    if fs == [] then v in ActiveValues(rows, slot)
    else
      var earlier, f := fs[..|fs| - 1], fs[|fs| - 1];
      if !SameSlot(f, slot) then Survives(rows, earlier, slot, v)
      else v == f.value && ((!Stored(rows, f) && f !in earlier) || Survives(rows, earlier, slot, v))
  }

  lemma StoredOneByOne(rows: seq<Row>, fs: seq<Fact>, c: Config, f: Fact)
    ensures Stored(Exec(rows, OneByOne(fs, c)), f) <==> Stored(rows, f) || f in fs
  {
    ExecStores(rows, OneByOne(fs, c), f);
    OnlyWritesItself(fs, c, f);
  }

  /** The one-by-one path: exactly which values of a singleton slot are active afterwards. */
  lemma {:induction false} OneByOneLeavesIff(rows: seq<Row>, fs: seq<Fact>, c: Config, slot: Fact, v: string)
    requires c.invalidates && c.singleton(slot.relation)
    ensures v in ActiveValues(Exec(rows, OneByOne(fs, c)), slot) <==> Survives(rows, fs, slot, v)
    decreases |fs|
  {
    if fs != [] {
      var earlier, f := fs[..|fs| - 1], fs[|fs| - 1];
      OneByOneLeavesIff(rows, earlier, c, slot, v);
      StoredOneByOne(rows, earlier, c, f);
      ExecAppend(rows, OneByOne(earlier, c), Single(f, c));
      OneStep(Exec(rows, OneByOne(earlier, c)), f, c, slot);
    }
  }

  /**
   After the last fact of a slot its value is the only active one if that fact was new or its value was active still;
   otherwise nothing is, for storing does not reopen a closed row.
   */
  lemma LastStoredValueWins(rows: seq<Row>, before: seq<Fact>, f: Fact, after: seq<Fact>, c: Config)
    requires !c.hasBatch && c.invalidates && c.singleton(f.relation)
    requires forall g | g in after :: !SameSlot(g, f)
    ensures ActiveValues(Exec(rows, Calls(before + [f] + after, c)), f)
            == if (!Stored(rows, f) && f !in before) || Survives(rows, before, f, f.value) then {f.value} else {}
  {
    var fs := before + [f] + after;
    forall v
      ensures v in ActiveValues(Exec(rows, Calls(fs, c)), f) <==> Survives(rows, before + [f], f, v)
    {
      OneByOneLeavesIff(rows, fs, c, f, v);
      OthersDoNotMatter(rows, before + [f], after, f, v);
    }
    assert (before + [f])[..|before|] == before;
  }

  lemma {:induction false} OthersDoNotMatter(rows: seq<Row>, fs: seq<Fact>, after: seq<Fact>, slot: Fact, v: string)
    requires forall g | g in after :: !SameSlot(g, slot)
    ensures Survives(rows, fs + after, slot, v) <==> Survives(rows, fs, slot, v)
    decreases |after|
  {
    if after == [] {
      assert fs + after == fs;
    } else {
      OthersDoNotMatter(rows, fs, after[..|after| - 1], slot, v);
      assert (fs + after)[..|fs + after| - 1] == fs + after[..|after| - 1];
    }
  }

  /** The table after one call that gets through. */
  function AfterCall(rows: seq<Row>, facts: seq<Fact>, c: Config, idText: nat -> string): seq<Row> {
    Exec(rows, Calls(Unique(facts, idText), c))
  }

  lemma UniqueOfOne(f: Fact, idText: nat -> string)
    ensures Unique([f], idText) == [f]
  {
    hide DedupeKey;
    assert [f][..0] == [];
  }

  lemma OneFactCall(rows: seq<Row>, f: Fact, c: Config, idText: nat -> string)
    ensures AfterCall(rows, [f], c, idText) == Exec(rows, Single(f, c))
  {
    hide Unique, Single, Exec, Invalidations;
    UniqueOfOne(f, idText);
    assert [f][..0] == [];
    InvalidationsOfOne(f, c);
    assert OneByOne([f], c) == Single(f, c);
  }

  /** Three calls, on either path: going back to an earlier value from the same memory leaves nothing active at all. */
  lemma ReturningValueStaysClosed(c: Config, idText: nat -> string)
    requires c.invalidates && c.singleton("place")
    ensures var paris, rome := Fact("t", "user", "place", "Paris", 0), Fact("t", "user", "place", "Rome", 1);
            var moved := AfterCall(AfterCall([], [paris], c, idText), [rome], c, idText);
            ActiveValues(moved, paris) == {"Rome"} && ActiveValues(AfterCall(moved, [paris], c, idText), paris) == {}
  {
    hide Exec, Single;
    var paris, rome := Fact("t", "user", "place", "Paris", 0), Fact("t", "user", "place", "Rome", 1);
    var first := AfterCall([], [paris], c, idText);
    var moved := AfterCall(first, [rome], c, idText);
    OneFactCall([], paris, c, idText);
    OneFactCall(first, rome, c, idText);
    OneFactCall(moved, paris, c, idText);
    SingleStores([], paris, c, paris);
    SingleStores([], paris, c, rome);
    SingleStores(first, rome, c, paris);
    OneStep(first, rome, c, paris);
    OneStep(moved, paris, c, paris);
  }

  lemma SingleStores(rows: seq<Row>, f: Fact, c: Config, g: Fact)
    ensures Stored(Exec(rows, Single(f, c)), g) <==> Stored(rows, g) || f == g
  {
    ExecStores(rows, Single(f, c), g);
    assert Write([f]) == Single(f, c)[0];
  }

  lemma CloseKeepsFacts(rows: seq<Row>, winner: Fact, f: Fact)
    ensures Stored(Close(rows, winner), f) <==> Stored(rows, f)
  {
    var r := Close(rows, winner);
    if row :| row in rows && row.fact == f {
      var i :| 0 <= i < |rows| && rows[i] == row;
      assert r[i].fact == f;
    }
    if row :| row in r && row.fact == f {
      var i :| 0 <= i < |r| && r[i] == row;
      assert rows[i].fact == f;
    }
  }

  lemma {:induction false} PutAllStores(rows: seq<Row>, fs: seq<Fact>, f: Fact)
    ensures Stored(PutAll(rows, fs), f) <==> Stored(rows, f) || f in fs
    decreases |fs|
  {
    if fs != [] {
      var g := fs[|fs| - 1];
      var mid := PutAll(rows, fs[..|fs| - 1]);
      PutAllStores(rows, fs[..|fs| - 1], f);
      assert Stored(Put(mid, g), g);
      if row :| row in mid && row.fact == f {
        assert row in Put(mid, g) by {
          var i :| 0 <= i < |mid| && mid[i] == row;
          assert ([Row(g, true)] + mid)[i + 1] == row;
        }
      }
    }
  }

  lemma {:induction false} ExecStores(rows: seq<Row>, ops: seq<Op>, f: Fact)
    ensures Stored(Exec(rows, ops), f) <==> Stored(rows, f) || exists op | op in ops :: op.Write? && f in op.facts
    decreases |ops|
  {
    if ops != [] {
      var op := ops[|ops| - 1];
      var mid := Exec(rows, ops[..|ops| - 1]);
      ExecStores(rows, ops[..|ops| - 1], f);
      assert forall o :: o in ops <==> o in ops[..|ops| - 1] || o == op;
      match op
      case Write(fs) => PutAllStores(mid, fs, f);
      case Invalidate(winner) => CloseKeepsFacts(mid, winner, f);
    }
  }

  /** The one-by-one path writes the facts of its list, each by itself, and no other. */
  lemma {:induction false} OnlyWritesItself(fs: seq<Fact>, c: Config, f: Fact)
    ensures f in fs <==> exists op | op in OneByOne(fs, c) :: op.Write? && f in op.facts
    decreases |fs|
  {
    if fs != [] {
      var earlier, g := fs[..|fs| - 1], fs[|fs| - 1];
      OnlyWritesItself(earlier, c, f);
      assert forall op :: op in OneByOne(fs, c) <==> op in OneByOne(earlier, c) || op in Single(g, c);
      assert Single(g, c)[0] == Write([g]);
      assert fs == earlier + [g];
    }
  }

  /** Every completed call keeps at most one active value in every slot of a singleton relation. */
  lemma {:induction false} CompletedCallKeepsSingletons(rows: seq<Row>, unique: seq<Fact>, c: Config, slot: Fact)
    requires c.invalidates && c.singleton(slot.relation) && AtMostOne(ActiveValues(rows, slot))
    ensures AtMostOne(ActiveValues(Exec(rows, Calls(unique, c)), slot))
    decreases |unique|
  {
    if unique == [] {
    } else if c.hasBatch {
      forall v { BatchKeepsAgreedValue(rows, unique, c, slot, v); }
      PutAllValues(rows, unique, slot);
    } else {
      var f := unique[|unique| - 1];
      var earlier := unique[..|unique| - 1];
      CompletedCallKeepsSingletons(rows, earlier, c, slot);
      ExecAppend(rows, OneByOne(earlier, c), Single(f, c));
      OneStep(Exec(rows, OneByOne(earlier, c)), f, c, slot);
    }
  }

  /** A completed call leaves at most one active value in every such slot it mentions, whatever the table held. */
  lemma CompletedCallMakesSingletons(rows: seq<Row>, unique: seq<Fact>, c: Config, slot: Fact)
    requires c.invalidates && c.singleton(slot.relation) && exists f | f in unique :: SameSlot(f, slot)
    ensures AtMostOne(ActiveValues(Exec(rows, Calls(unique, c)), slot))
  {
    hide Exec, ActiveValues, Survives;
    var f :| f in unique && SameSlot(f, slot);
    forall v, w | v in ActiveValues(Exec(rows, Calls(unique, c)), slot) && w in ActiveValues(Exec(rows, Calls(unique, c)), slot)
      ensures v == w
    {
      if c.hasBatch {
        BatchKeepsAgreedValue(rows, unique, c, slot, v);
        BatchKeepsAgreedValue(rows, unique, c, slot, w);
      } else {
        OneByOneLeavesIff(rows, unique, c, slot, v);
        OneByOneLeavesIff(rows, unique, c, slot, w);
        SurvivorsAreOne(rows, unique, slot, v, w);
      }
    }
  }

  lemma {:induction false} SurvivorsAreOne(rows: seq<Row>, fs: seq<Fact>, slot: Fact, v: string, w: string)
    requires Survives(rows, fs, slot, v) && Survives(rows, fs, slot, w) && exists f | f in fs :: SameSlot(f, slot)
    ensures v == w
    decreases |fs|
  {
    var n := |fs| - 1;
    assert fs == fs[..n] + [fs[n]];
    if !SameSlot(fs[n], slot) {
      SurvivorsAreOne(rows, fs[..n], slot, v, w);
    }
  }

  // ----- calls that break off

  /** Active before, or brought in. */
  ghost predicate Left(rows: seq<Row>, fs: seq<Fact>, slot: Fact, v: string) {
    v in ActiveValues(rows, slot) || BringsIn(rows, fs, slot, v)
  }

  /** The operation closes every other value of the slot. */
  predicate Mends(op: Op, slot: Fact) {
    op.Invalidate? && SameSlot(op.winner, slot)
  }

  /** The values a batch call leaves active when it broke off after its write: those no invalidation it got through closed. */
  lemma BrokenBatchLeavesIff(rows: seq<Row>, unique: seq<Fact>, c: Config, ran: seq<Op>, calls: nat, slot: Fact, v: string)
    requires c.hasBatch && c.invalidates && c.singleton(slot.relation) && BrokeOff(ran, Calls(unique, c), calls) && ran != []
    ensures v in ActiveValues(Exec(rows, ran), slot)
            <==> Left(rows, unique, slot, v) && forall op | op in ran && Mends(op, slot) :: op.winner.value == v
  {
    var n := BrokenBatchShape(ran, unique, c, calls);
    var earlier := unique[..n];
    WrittenValues(rows, unique, slot, v);
    ExecAppend(rows, [Write(unique)], Invalidations(earlier, c));
    assert Exec(rows, [Write(unique)]) == PutAll(rows, unique) by { assert [Write(unique)][..0] == []; }
    InvalidationValues(PutAll(rows, unique), earlier, c, slot, v);
    hide Exec, ActiveValues;
    forall op
      ensures op in ran && Mends(op, slot) <==> op.Invalidate? && op.winner in earlier && SameSlot(op.winner, slot)
    {
      InvalidationsOf(earlier, c, op);
    }
    assert forall f | f in earlier && SameSlot(f, slot) :: Mends(Invalidate(f), slot);
  }

  lemma {:induction false} InvalidationsOf(fs: seq<Fact>, c: Config, op: Op)
    requires c.invalidates
    ensures op in Invalidations(fs, c) <==> op.Invalidate? && op.winner in fs && c.singleton(op.winner.relation)
    decreases |fs|
  {
    if fs != [] {
      InvalidationsOf(fs[..|fs| - 1], c, op);
      assert fs == fs[..|fs| - 1] + [fs[|fs| - 1]];
    }
  }

  lemma BrokenBatchShape(ran: seq<Op>, fs: seq<Fact>, c: Config, calls: nat) returns (n: nat)
    requires c.hasBatch && BrokeOff(ran, Calls(fs, c), calls) && ran != []
    ensures n <= |fs| && ran == [Write(fs)] + Invalidations(fs[..n], c)
  {
    var rest := ran[1..];
    assert ran == [Write(fs)] + rest;
    assert rest <= Invalidations(fs, c) by {
      assert Calls(fs, c)[1..] == Invalidations(fs, c);
    }
    n := InvalidationPrefix(rest, fs, c);
  }

  lemma {:induction false} InvalidationPrefix(ran: seq<Op>, fs: seq<Fact>, c: Config) returns (n: nat)
    requires ran <= Invalidations(fs, c)
    ensures n <= |fs| && ran == Invalidations(fs[..n], c)
    decreases |fs|
  {
    if ran == Invalidations(fs, c) {
      n := |fs|;
      assert fs[..n] == fs;
    } else {
      n := InvalidationPrefix(ran, fs[..|fs| - 1], c);
      assert fs[..|fs| - 1][..n] == fs[..n];
    }
  }

  /**
   A batch call that broke off after its write leaves a slot with at most one value if and only if an invalidation of that
   slot got through, or the write left no two different values in it.
   */
  lemma BrokenBatchKeepsSingletonIff(rows: seq<Row>, unique: seq<Fact>, c: Config, ran: seq<Op>, calls: nat, slot: Fact)
    requires c.hasBatch && c.invalidates && c.singleton(slot.relation) && BrokeOff(ran, Calls(unique, c), calls) && ran != []
    ensures AtMostOne(ActiveValues(Exec(rows, ran), slot))
            <==> || (exists op | op in ran :: Mends(op, slot))
                 || forall v, w | Left(rows, unique, slot, v) && Left(rows, unique, slot, w) :: v == w
  {
    var after := ActiveValues(Exec(rows, ran), slot);
    hide Exec, ActiveValues, Calls, Left;
    forall v
      ensures v in after <==> Left(rows, unique, slot, v) && forall op | op in ran && Mends(op, slot) :: op.winner.value == v
    {
      BrokenBatchLeavesIff(rows, unique, c, ran, calls, slot, v);
    }
  }

  /** The first n facts of the list were stored and invalidated for; and fact n was stored, if there was a call to spare. */
  predicate StoppedAt(ran: seq<Op>, fs: seq<Fact>, c: Config, n: nat) {
    n <= |fs| && (ran == OneByOne(fs[..n], c) || HalfDone(ran, fs, c, n))
  }

  predicate HalfDone(ran: seq<Op>, fs: seq<Fact>, c: Config, n: nat) {
    n < |fs| && ran == OneByOne(fs[..n], c) + [Write([fs[n]])]
  }

  /** Fact n is new to the table and to the facts before it. */
  ghost predicate IsNew(rows: seq<Row>, fs: seq<Fact>, n: nat)
    requires n < |fs|
  {
    !Stored(rows, fs[n]) && fs[n] !in fs[..n]
  }

  /** What a one-by-one call leaves active in a slot, wherever it broke off. */
  lemma BrokenStepLeavesIff(rows: seq<Row>, fs: seq<Fact>, c: Config, ran: seq<Op>, slot: Fact, v: string, n: nat)
    requires c.invalidates && c.singleton(slot.relation) && StoppedAt(ran, fs, c, n)
    ensures v in ActiveValues(Exec(rows, ran), slot)
            <==> || Survives(rows, fs[..n], slot, v)
                 || (HalfDone(ran, fs, c, n) && SameSlot(fs[n], slot) && IsNew(rows, fs, n) && v == fs[n].value)
  {
    var mid := Exec(rows, OneByOne(fs[..n], c));
    OneByOneLeavesIff(rows, fs[..n], c, slot, v);
    if HalfDone(ran, fs, c, n) {
      ExecLast(rows, OneByOne(fs[..n], c), Write([fs[n]]));
      PutOne(mid, fs[n]);
      PutValues(mid, fs[n], slot);
      StoredOneByOne(rows, fs[..n], c, fs[n]);
    }
  }

  /**
   A one-by-one call, wherever it broke off, keeps a slot to one value if and only if it did not stop between the write of a
   new fact of that slot and its invalidation, or no other value had survived the facts before that one.
   */
  lemma BrokenStepKeepsSingletonIff(rows: seq<Row>, unique: seq<Fact>, c: Config, ran: seq<Op>, calls: nat, slot: Fact)
      returns (n: nat)
    requires !c.hasBatch && c.invalidates && c.singleton(slot.relation) && BrokeOff(ran, Calls(unique, c), calls)
    requires AtMostOne(ActiveValues(rows, slot))
    ensures StoppedAt(ran, unique, c, n)
    ensures AtMostOne(ActiveValues(Exec(rows, ran), slot))
            <==> HalfDone(ran, unique, c, n) && SameSlot(unique[n], slot) && IsNew(rows, unique, n) ==>
                   forall v | Survives(rows, unique[..n], slot, v) :: v == unique[n].value
  {
    n := BrokenStepShape(ran, unique, c);
    var mid, after := ActiveValues(Exec(rows, OneByOne(unique[..n], c)), slot), ActiveValues(Exec(rows, ran), slot);
    OneByOneKeepsSingletons(rows, unique[..n], c, slot);
    forall v
      ensures v in mid <==> Survives(rows, unique[..n], slot, v)
    {
      OneByOneLeavesIff(rows, unique[..n], c, slot, v);
    }
    forall v
      ensures v in after <==> v in mid || (HalfDone(ran, unique, c, n) && SameSlot(unique[n], slot) && IsNew(rows, unique, n)
                                           && v == unique[n].value)
    {
      BrokenStepLeavesIff(rows, unique, c, ran, slot, v, n);
    }
    if HalfDone(ran, unique, c, n) && SameSlot(unique[n], slot) && IsNew(rows, unique, n) {
      AddedToOne(mid, unique[n].value);
      assert after == mid + {unique[n].value};
      if v :| Survives(rows, unique[..n], slot, v) && v != unique[n].value {
        OneByOneLeavesIff(rows, unique[..n], c, slot, v);
        assert v in mid;
      }
    } else {
      assert after == mid;
    }
  }

  lemma AddedToOne(values: set<string>, v: string)
    requires AtMostOne(values)
    ensures AtMostOne(values + {v}) <==> forall w | w in values :: w == v
  {
    assert v in values + {v};
  }

  /** Between two facts, or between a fact's write and its invalidation: a one-by-one call breaks off nowhere else. */
  lemma {:induction false} BrokenStepShape(ran: seq<Op>, fs: seq<Fact>, c: Config) returns (n: nat)
    requires ran <= OneByOne(fs, c)
    ensures StoppedAt(ran, fs, c, n)
    decreases |fs|
  {
    if ran == OneByOne(fs, c) {
      n := |fs|;
      assert fs[..n] == fs;
    } else {
      var earlier := OneByOne(fs[..|fs| - 1], c);
      if |ran| <= |earlier| {
        n := BrokenStepShape(ran, fs[..|fs| - 1], c);
        assert fs[..|fs| - 1][..n] == fs[..n];
      } else {
        n := |fs| - 1;
        assert ran[|earlier|] == Single(fs[n], c)[0];
        assert ran == earlier + [Write([fs[n]])];
      }
    }
  }

  lemma OneByOneKeepsSingletons(rows: seq<Row>, fs: seq<Fact>, c: Config, slot: Fact)
    requires c.invalidates && c.singleton(slot.relation) && AtMostOne(ActiveValues(rows, slot))
    ensures AtMostOne(ActiveValues(Exec(rows, OneByOne(fs, c)), slot))
  {
    CompletedCallKeepsSingletons(rows, fs, c.(hasBatch := false), slot);
    SameWithoutBatch(fs, c);
  }

  lemma {:induction false} SameWithoutBatch(fs: seq<Fact>, c: Config)
    ensures OneByOne(fs, c.(hasBatch := false)) == OneByOne(fs, c)
    decreases |fs|
  {
    if fs != [] {
      SameWithoutBatch(fs[..|fs| - 1], c);
    }
  }

  /** Paris was active; a call that stores Rome and breaks off before its invalidation leaves both, on either path. */
  lemma BrokenCallLeavesTwo(c: Config)
    requires c.invalidates && c.singleton("place")
    ensures var paris, rome := Fact("t", "user", "place", "Paris", 0), Fact("t", "user", "place", "Rome", 1);
            exists ran :: BrokeOff(ran, Calls([rome], c), 1) && ActiveValues(Exec([Row(paris, true)], ran), paris) == {"Paris", "Rome"}
  {
    var paris, rome := Fact("t", "user", "place", "Paris", 0), Fact("t", "user", "place", "Rome", 1);
    var rows, ran := [Row(paris, true)], [Write([rome])];
    InvalidationsOfOne(rome, c);
    assert [rome][..0] == [] && OneByOne([rome], c) == Single(rome, c);
    assert BrokeOff(ran, Calls([rome], c), 1);
    ExecLast(rows, [], Write([rome]));
    PutOne(rows, rome);
    PutValues(rows, rome, paris);
    assert rows[0] in rows;
    assert ActiveValues(rows, paris) == {"Paris"};
  }

  // ----- what is never touched, wherever a call breaks off

  predicate ClosesOnlySingletons(ops: seq<Op>, c: Config) {
    forall op | op in ops && op.Invalidate? :: c.singleton(op.winner.relation) && c.invalidates
  }

  lemma {:induction false} InvalidationsAreSingleton(fs: seq<Fact>, c: Config)
    ensures ClosesOnlySingletons(Invalidations(fs, c), c)
    decreases |fs|
  {
    if fs != [] {
      InvalidationsAreSingleton(fs[..|fs| - 1], c);
    }
  }

  lemma {:induction false} OneByOneClosesOnlySingletons(fs: seq<Fact>, c: Config)
    ensures ClosesOnlySingletons(OneByOne(fs, c), c)
    decreases |fs|
  {
    if fs != [] {
      OneByOneClosesOnlySingletons(fs[..|fs| - 1], c);
    }
  }

  lemma {:induction false} ExecKeepsRow(rows: seq<Row>, ops: seq<Op>, c: Config, row: Row)
    requires ClosesOnlySingletons(ops, c) && row in rows && (!c.invalidates || !c.singleton(row.fact.relation))
    ensures row in Exec(rows, ops)
    decreases |ops|
  {
    if ops != [] {
      var op := ops[|ops| - 1];
      var mid := Exec(rows, ops[..|ops| - 1]);
      ExecKeepsRow(rows, ops[..|ops| - 1], c, row);
      match op
      case Write(fs) => PutAllKeepsRow(mid, fs, row);
      case Invalidate(winner) =>
        var i :| 0 <= i < |mid| && mid[i] == row;
        assert Close(mid, winner)[i] == row;
    }
  }

  lemma {:induction false} PutAllKeepsRow(rows: seq<Row>, fs: seq<Fact>, row: Row)
    requires row in rows
    ensures row in PutAll(rows, fs)
    decreases |fs|
  {
    if fs != [] {
      PutAllKeepsRow(rows, fs[..|fs| - 1], row);
    }
  }

  /** However many of its table calls get through, a run never closes a fact of another relation. */
  lemma OtherRelationsStayOpen(rows: seq<Row>, unique: seq<Fact>, c: Config, ran: seq<Op>, calls: nat, row: Row)
    requires BrokeOff(ran, Calls(unique, c), calls) && row in rows && (!c.invalidates || !c.singleton(row.fact.relation))
    ensures row in Exec(rows, ran)
  {
    OneByOneClosesOnlySingletons(unique, c);
    InvalidationsAreSingleton(unique, c);
    assert forall i | 0 <= i < |ran| :: ran[i] == Calls(unique, c)[i];
    ExecKeepsRow(rows, ran, c, row);
  }

  // ----- the text duplicates are told by

  predicate NoBar(s: string) {
    '|' !in s
  }

  ghost predicate Names(op: Op, f: Fact) {
    match op
    case Write(fs) => f in fs
    case Invalidate(winner) => f == winner
  }

  lemma {:induction false} InvalidationsNameTheirs(fs: seq<Fact>, c: Config, op: Op, f: Fact)
    requires op in Invalidations(fs, c) && Names(op, f)
    ensures f in fs
    decreases |fs|
  {
    if op in Invalidations(fs[..|fs| - 1], c) {
      InvalidationsNameTheirs(fs[..|fs| - 1], c, op, f);
    }
  }

  lemma {:induction false} StepsNameTheirs(fs: seq<Fact>, c: Config, op: Op, f: Fact)
    requires op in OneByOne(fs, c) && Names(op, f)
    ensures f in fs
    decreases |fs|
  {
    if op in OneByOne(fs[..|fs| - 1], c) {
      StepsNameTheirs(fs[..|fs| - 1], c, op, f);
    } else {
      assert op in Single(fs[|fs| - 1], c);
    }
  }

  lemma CallsNameTheirs(unique: seq<Fact>, c: Config, op: Op, f: Fact)
    requires op in Calls(unique, c) && Names(op, f)
    ensures f in unique
  {
    if c.hasBatch {
      if op in Invalidations(unique, c) {
        InvalidationsNameTheirs(unique, c, op, f);
      }
    } else {
      StepsNameTheirs(unique, c, op, f);
    }
  }

  lemma {:induction false} PutAllAddsOwn(rows: seq<Row>, fs: seq<Fact>, row: Row)
    requires row.fact !in fs
    ensures row in PutAll(rows, fs) <==> row in rows
    decreases |fs|
  {
    if fs != [] {
      PutAllAddsOwn(rows, fs[..|fs| - 1], row);
    }
  }

  lemma ClosesOwn(rows: seq<Row>, winner: Fact, row: Row)
    requires !(winner.tenant == row.fact.tenant && winner.entity == row.fact.entity && winner.relation == row.fact.relation)
    ensures row in Close(rows, winner) <==> row in rows
  {
    if row in rows {
      var i :| 0 <= i < |rows| && rows[i] == row;
      assert Close(rows, winner)[i] == row;
    }
  }

  lemma {:induction false} OthersUntouched(rows: seq<Row>, ops: seq<Op>, row: Row)
    requires forall op, f | op in ops && Names(op, f) ::
               !(f.tenant == row.fact.tenant && f.entity == row.fact.entity && f.relation == row.fact.relation)
    ensures row in Exec(rows, ops) <==> row in rows
    decreases |ops|
  {
    if ops != [] {
      var op := ops[|ops| - 1];
      var mid := Exec(rows, ops[..|ops| - 1]);
      OthersUntouched(rows, ops[..|ops| - 1], row);
      match op
      case Write(fs) =>
        assert row.fact in fs ==> Names(op, row.fact);
        PutAllAddsOwn(mid, fs, row);
      case Invalidate(winner) =>
        assert Names(op, winner);
        ClosesOwn(mid, winner, row);
    }
  }

  /** However many of its table calls get through: no row of a tenant, entity and relation its facts do not name comes, goes or closes. */
  lemma OtherSlotsUntouched(rows: seq<Row>, unique: seq<Fact>, c: Config, ran: seq<Op>, calls: nat, row: Row)
    requires BrokeOff(ran, Calls(unique, c), calls)
    requires forall f | f in unique :: !(f.tenant == row.fact.tenant && f.entity == row.fact.entity && f.relation == row.fact.relation)
    ensures row in Exec(rows, ran) <==> row in rows
  {
    forall op, f | op in ran && Names(op, f)
      ensures f in unique
    {
      CallsNameTheirs(unique, c, op, f);
    }
    OthersUntouched(rows, ran, row);
  }

  /** A completed call leaves a row for every fact that was there before and every fact it was given, and no other. */
  lemma CompletedCallRecords(rows: seq<Row>, unique: seq<Fact>, c: Config, f: Fact)
    ensures (exists row | row in Exec(rows, Calls(unique, c)) :: row.fact == f)
            <==> f in unique || exists row | row in rows :: row.fact == f
  {
    var ops := Calls(unique, c);
    ExecStores(rows, ops, f);
    assert (exists op | op in ops :: op.Write? && f in op.facts) <==> f in unique by {
      if op :| op in ops && op.Write? && f in op.facts {
        CallsNameTheirs(unique, c, op, f);
      }
      if f in unique {
        if c.hasBatch {
          assert ops[0] == Write(unique);
        } else {
          OnlyWritesItself(unique, c, f);
        }
      }
    }
  }

  lemma {:induction false} SplitAtBar(a: string, b: string, x: string, y: string)
    requires NoBar(a) && NoBar(x) && a + "|" + b == x + "|" + y
    ensures a == x && b == y
  {
    var s := a + "|" + b;
    assert s[|a|] == '|' && s[|x|] == '|';
    assert forall i | 0 <= i < |a| :: s[i] == a[i];
    assert forall i | 0 <= i < |x| :: s[i] == x[i];
    assert a == s[..|a|] && x == s[..|x|];
    assert b == s[|a| + 1..] && y == s[|x| + 1..];
  }

  predicate PlainFields(f: Fact) {
    NoBar(f.tenant) && NoBar(f.entity) && NoBar(f.relation) && NoBar(f.value)
  }

  lemma KeysTellFactsApart(f: Fact, g: Fact, idText: nat -> string)
    requires PlainFields(f) && PlainFields(g) && (forall m, n | idText(m) == idText(n) :: m == n)
    requires DedupeKey(f, idText) == DedupeKey(g, idText)
    ensures f == g
  {
    var fm, gm := idText(f.memory), idText(g.memory);
    var fv, gv := f.value + "|" + fm, g.value + "|" + gm;
    var fr, gr := f.relation + "|" + fv, g.relation + "|" + gv;
    var fe, ge := f.entity + "|" + fr, g.entity + "|" + gr;
    assert DedupeKey(f, idText) == f.tenant + "|" + fe && DedupeKey(g, idText) == g.tenant + "|" + ge;
    SplitAtBar(f.tenant, fe, g.tenant, ge);
    SplitAtBar(f.entity, fr, g.entity, gr);
    SplitAtBar(f.relation, fv, g.relation, gv);
    SplitAtBar(f.value, fm, g.value, gm);
  }

  /** The place of the first fact with a text; the length of the list when there is none. */
  function FirstPlace(fs: seq<Fact>, key: string, idText: nat -> string): (i: nat)
    ensures i <= |fs| && (i < |fs| ==> DedupeKey(fs[i], idText) == key)
    ensures forall j | 0 <= j < i :: DedupeKey(fs[j], idText) != key
  {
    if fs == [] || DedupeKey(fs[0], idText) == key then 0 else 1 + FirstPlace(fs[1..], key, idText)
  }

  /** The kept facts are the first ones with their texts, in the order of the list, and every text in the list has one. */
  ghost predicate KeepsFirsts(fs: seq<Fact>, unique: seq<Fact>, idText: nat -> string) {
    && (forall a | 0 <= a < |unique| :: Place(fs, unique[a], idText) < |fs| && fs[Place(fs, unique[a], idText)] == unique[a])
    && (forall a, b | 0 <= a < b < |unique| :: Place(fs, unique[a], idText) < Place(fs, unique[b], idText))
    && (forall f | f in fs :: HasText(unique, DedupeKey(f, idText), idText))
  }

  function Place(fs: seq<Fact>, f: Fact, idText: nat -> string): nat {
    FirstPlace(fs, DedupeKey(f, idText), idText)
  }

  predicate HasText(fs: seq<Fact>, key: string, idText: nat -> string) {
    exists f | f in fs :: DedupeKey(f, idText) == key
  }

  lemma {:induction false} PlaceStays(fs: seq<Fact>, last: Fact, key: string, idText: nat -> string)
    ensures FirstPlace(fs + [last], key, idText)
            == if FirstPlace(fs, key, idText) < |fs| then FirstPlace(fs, key, idText)
               else if DedupeKey(last, idText) == key then |fs| else |fs| + 1
  {
    hide DedupeKey;
    if fs == [] {
      assert fs + [last] == [last];
    } else {
      PlaceStays(fs[1..], last, key, idText);
      assert (fs + [last])[1..] == fs[1..] + [last];
    }
  }

  lemma PlacesStay(fs: seq<Fact>, last: Fact, unique: seq<Fact>, idText: nat -> string)
    requires KeepsFirsts(fs, unique, idText)
    ensures forall a | 0 <= a < |unique| :: Place(fs + [last], unique[a], idText) == Place(fs, unique[a], idText)
  {
    hide DedupeKey, FirstPlace;
    forall a | 0 <= a < |unique|
      ensures Place(fs + [last], unique[a], idText) == Place(fs, unique[a], idText)
    {
      PlaceStays(fs, last, DedupeKey(unique[a], idText), idText);
    }
  }

  lemma SkippedKeepsFirsts(fs: seq<Fact>, last: Fact, unique: seq<Fact>, idText: nat -> string)
    requires KeepsFirsts(fs, unique, idText) && HasText(fs, DedupeKey(last, idText), idText)
    ensures KeepsFirsts(fs + [last], unique, idText)
  {
    hide DedupeKey, FirstPlace, Place, HasText;
    PlacesStay(fs, last, unique, idText);
    TextKept(fs, unique, last, idText);
  }

  lemma TextKept(fs: seq<Fact>, unique: seq<Fact>, last: Fact, idText: nat -> string)
    requires (forall f | f in fs :: HasText(unique, DedupeKey(f, idText), idText)) && HasText(fs, DedupeKey(last, idText), idText)
    ensures HasText(unique, DedupeKey(last, idText), idText)
  {
    hide DedupeKey;
    var f :| f in fs && DedupeKey(f, idText) == DedupeKey(last, idText);
  }

  lemma AddedKeepsFirsts(fs: seq<Fact>, last: Fact, unique: seq<Fact>, idText: nat -> string)
    requires KeepsFirsts(fs, unique, idText) && !HasText(fs, DedupeKey(last, idText), idText)
    ensures KeepsFirsts(fs + [last], unique + [last], idText)
  {
    hide DedupeKey, FirstPlace;
    PlacesStay(fs, last, unique, idText);
    PlaceStays(fs, last, DedupeKey(last, idText), idText);
    NoTextNoPlace(fs, DedupeKey(last, idText), idText);
    hide Place;
    forall f | f in fs + [last]
      ensures HasText(unique + [last], DedupeKey(f, idText), idText)
    {
      MoreTexts(unique, last, DedupeKey(f, idText), idText);
    }
  }

  lemma NoTextNoPlace(fs: seq<Fact>, key: string, idText: nat -> string)
    ensures FirstPlace(fs, key, idText) < |fs| ==> HasText(fs, key, idText)
  {
    hide DedupeKey, FirstPlace;
    var i := FirstPlace(fs, key, idText);
    assert i < |fs| ==> fs[i] in fs;
  }

  lemma MoreTexts(fs: seq<Fact>, last: Fact, key: string, idText: nat -> string)
    ensures HasText(fs + [last], key, idText) <==> HasText(fs, key, idText) || DedupeKey(last, idText) == key
  {
    hide DedupeKey;
    assert forall f :: f in fs + [last] <==> f in fs || f == last;
  }

  lemma {:induction false} UniqueKeepsFirsts(fs: seq<Fact>, idText: nat -> string)
    ensures KeepsFirsts(fs, Unique(fs, idText), idText)
    decreases |fs|
  {
    hide DedupeKey, FirstPlace;
    if fs != [] {
      var n := |fs| - 1;
      UniqueKeepsFirsts(fs[..n], idText);
      assert fs == fs[..n] + [fs[n]];
      hide KeepsFirsts;
      if HasText(fs[..n], DedupeKey(fs[n], idText), idText) {
        SkippedKeepsFirsts(fs[..n], fs[n], Unique(fs[..n], idText), idText);
      } else {
        AddedKeepsFirsts(fs[..n], fs[n], Unique(fs[..n], idText), idText);
      }
    }
  }

  /** Deduplication loses no fact if and only if no two different facts of the list share a text. */
  lemma UniqueLosesNothingIff(fs: seq<Fact>, idText: nat -> string)
    ensures (forall f | f in fs :: f in Unique(fs, idText))
            <==> forall i, j | 0 <= i < j < |fs| && DedupeKey(fs[i], idText) == DedupeKey(fs[j], idText) :: fs[i] == fs[j]
  {
    hide DedupeKey, Unique, FirstPlace;
    var unique := Unique(fs, idText);
    UniqueKeepsFirsts(fs, idText);
    if forall f | f in fs :: f in unique {
      forall i, j | 0 <= i < j < |fs| && DedupeKey(fs[i], idText) == DedupeKey(fs[j], idText)
        ensures fs[i] == fs[j]
      {
        assert fs[i] in unique && fs[j] in unique;
        assert Place(fs, fs[i], idText) == Place(fs, fs[j], idText);
      }
    } else {
      var f :| f in fs && f !in unique;
      var u :| u in unique && DedupeKey(u, idText) == DedupeKey(f, idText);
      var i, j := Place(fs, u, idText), IndexOf(fs, f);
      assert fs[i] == u && fs[j] == f && i != j;
      assert DedupeKey(fs[i], idText) == DedupeKey(fs[j], idText) && fs[i] != fs[j];
    }
  }

  function IndexOf(fs: seq<Fact>, f: Fact): (i: nat)
    requires f in fs
    ensures i < |fs| && fs[i] == f
  {
    if fs[0] == f then 0 else 1 + IndexOf(fs[1..], f)
  }

  /** So it loses none as long as no field holds a bar. */
  lemma UniqueLosesNothing(fs: seq<Fact>, idText: nat -> string)
    requires forall m, n | idText(m) == idText(n) :: m == n
    requires forall g | g in fs :: PlainFields(g)
    ensures forall f | f in fs :: f in Unique(fs, idText)
  {
    hide DedupeKey, Unique, PlainFields;
    forall i, j | 0 <= i < j < |fs| && DedupeKey(fs[i], idText) == DedupeKey(fs[j], idText)
      ensures fs[i] == fs[j]
    {
      KeysTellFactsApart(fs[i], fs[j], idText);
    }
    UniqueLosesNothingIff(fs, idText);
  }

  /** With a bar in a field two different facts can share the text, and the second is dropped. */
  lemma BarsCanCollide(idText: nat -> string)
    ensures var f, g := Fact("t", "a|role|b", "role", "c", 0), Fact("t", "a", "role", "b|role|c", 0);
            f != g && Unique([f, g], idText) == [f]
  {
    var f, g := Fact("t", "a|role|b", "role", "c", 0), Fact("t", "a", "role", "b|role|c", 0);
    assert DedupeKey(f, idText) == DedupeKey(g, idText);
    var fs := [f, g];
    assert fs[..|fs| - 1] == [f] && [f][..|[f]| - 1] == [];
    assert DedupeKey([f][0], idText) == DedupeKey(g, idText);
    assert Unique([f], idText) == [] + [f];
  }
}
