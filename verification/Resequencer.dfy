/** cmd/genfix: results arriving from parallel workers in any order, written to the fixture file in index order. */
module Resequencer {
  import opened FixtureText
  import opened Sums

  /**
   The file being written: room is how many more writes to it will succeed, partial how much of a failing one goes out all the
   same, and closes whether closing it will succeed.
   */
  class FixtureWriter {
    var text: string
    var room: nat
    const partial: nat
    const closes: bool
    var wroteItem: bool
    var closed: bool
    ghost var items: seq<string>

    ghost predicate Open()
      reads this
    {
      !closed && text == Opened(items) && wroteItem == (items != [])
    }

    constructor (room: nat, partial: nat, closes: bool)
      ensures Open() && items == [] && this.room == room && this.closes == closes
    {
      text, this.room, wroteItem, closed, items := "[\n", room, false, false, [];
      this.partial, this.closes := partial, closes;
    }

    method Emit(s: string) returns (ok: bool)
      modifies this`text, this`room
      ensures ok == (old(room) > 0)
      ensures ok ==> text == old(text) + s && room == old(room) - 1
      ensures !ok ==> old(text) <= text <= old(text) + s && room == old(room)
    {
      ok := room > 0;
      if ok {
        text, room := text + s, room - 1;
      } else {
        text := text + if partial < |s| then s[..partial] else s;
      }
    }

    /** One more item, or as much of it as went out. */
    method Write(raw: string) returns (ok: bool)
      requires closed || Open()
      modifies this`text, this`room, this`wroteItem, this`items
      ensures ok == (!old(closed) && old(room) >= if old(wroteItem) then 3 else 2)
      ensures ok ==> Open() && items == old(items) + [raw] && room == old(room) - if old(wroteItem) then 3 else 2
      ensures !ok ==> items == old(items) && if closed then text == old(text) else CutShort(text, items, raw)
    {
      ok := false;
      if closed {
        return;
      }
      OpenedWithOne(items, raw);
      hide Opened, CutShort;
      if wroteItem {
        var separated := Emit(",\n");
        if !separated {
          CutAtSeparator(text, items, raw);
          return;
        }
      }
      var indented := Emit("  ");
      if !indented {
        CutAtIndent(text, items, raw);
        return;
      }
      ok := Emit(raw);
      if ok {
        wroteItem := true;
        items := items + [raw];
      } else {
        CutAtItem(text, items, raw);
      }
    }

    /** Closing writes the end of the array once, and closes the file whatever became of that. */
    method Close() returns (ok: bool)
      requires closed || Open()
      modifies this`text, this`room, this`closed
      ensures closed
      ensures old(closed) ==> ok && text == old(text)
      ensures !old(closed) ==> (ok <==> old(room) >= (if old(wroteItem) then 2 else 1) && closes)
      ensures !old(closed) ==> old(text) <= text <= "[\n" + Body(items)
      ensures !old(closed) && old(room) >= (if old(wroteItem) then 2 else 1) ==> text == "[\n" + Body(items)
    {
      if closed {
        return true;
      }
      ok, closed := false, true;
      ClosedIsArray(items);
      hide Opened, Body;
      if wroteItem {
        var ended := Emit("\n");
        if !ended {
          return;
        }
      }
      var finished := Emit("]\n");
      ok := finished && closes;
    }
  }

  /** The items, and a beginning of what one more would add. */
  ghost predicate CutShort(text: string, items: seq<string>, raw: string) {
    Opened(items) <= text <= Opened(items + [raw])
  }

  /** What stands before the items but the first. */
  function Separated(items: seq<string>): string {
    if items == [] then Opened(items) else Opened(items) + ",\n"
  }

  lemma OpenedWithOne(items: seq<string>, raw: string)
    ensures Opened(items + [raw]) == Separated(items) + "  " + raw
  {
    assert (items + [raw])[..|items|] == items;
  }

  lemma CutAtSeparator(text: string, items: seq<string>, raw: string)
    requires items != [] && Opened(items) <= text <= Opened(items) + ",\n"
    ensures CutShort(text, items, raw)
  {
    OpenedWithOne(items, raw);
    hide Opened;
  }

  lemma CutAtIndent(text: string, items: seq<string>, raw: string)
    requires Separated(items) <= text <= Separated(items) + "  "
    ensures CutShort(text, items, raw)
  {
    OpenedWithOne(items, raw);
    hide Opened;
  }

  lemma CutAtItem(text: string, items: seq<string>, raw: string)
    requires Separated(items) + "  " <= text <= Separated(items) + "  " + raw
    ensures CutShort(text, items, raw)
  {
    OpenedWithOne(items, raw);
    hide Opened;
  }

  /** How many writes to the file the first k items take. */
  function Cost(k: nat): nat {
    if k == 0 then 0 else 3 * k - 1
  }

  lemma NextCost(k: nat)
    ensures Cost(k + 1) == Cost(k) + if k == 0 then 2 else 3
    ensures forall m | k <= m :: Cost(k) <= Cost(m)
  {
  }

  // ----- results

  datatype Outcome = Made(raw: string, category: string) | GenerationError
  datatype Result = Result(idx: nat, outcome: Outcome)

  predicate Reported(results: seq<Result>, i: nat) {
    exists r | r in results :: r.idx == i
  }

  /** What the workers send: one result for each index, in any order. */
  ghost predicate FromWorkers(results: seq<Result>, count: nat) {
    && (forall r | r in results :: r.idx < count)
    && (forall i | 0 <= i < count :: Reported(results, i))
    && (forall m, n | 0 <= m < n < |results| :: results[m].idx != results[n].idx)
  }

  /** The outcome of an index among the results so far; one not there yet reads as an error. */
  function At(results: seq<Result>, i: nat): Outcome
    decreases |results|
  {
    if results == [] then GenerationError
    else if results[|results| - 1].idx == i then results[|results| - 1].outcome
    else At(results[..|results| - 1], i)
  }

  lemma {:induction false} AtResult(results: seq<Result>, count: nat, n: nat)
    requires FromWorkers(results, count) && n < |results|
    ensures At(results, results[n].idx) == results[n].outcome
  {
    AtLater(results, n + 1, |results|, results[n].idx);
    assert results[..n + 1][n] == results[n] && results[..|results|] == results;
  }

  /** Results that come later leave an index's outcome alone. */
  lemma {:induction false} AtLater(results: seq<Result>, n: nat, m: nat, i: nat)
    requires n <= m <= |results| && forall k | n <= k < m :: results[k].idx != i
    ensures At(results[..m], i) == At(results[..n], i)
    decreases m - n
  {
    if n < m {
      AtLater(results, n, m - 1, i);
      assert results[..m][..m - 1] == results[..m - 1];
    }
  }

  lemma {:induction false} NotYetAt(results: seq<Result>, i: nat)
    requires forall r | r in results :: r.idx != i
    ensures At(results, i) == GenerationError
    decreases |results|
  {
    if results != [] {
      NotYetAt(results[..|results| - 1], i);
    }
  }

  /** How many leading indexes have an item: the least that failed or is missing. */
  function Lead(results: seq<Result>, from: nat, count: nat): (k: nat)
    requires from <= count
    ensures from <= k <= count
    ensures forall i | from <= i < k :: At(results, i).Made?
    ensures k < count ==> !At(results, k).Made?
    decreases count - from
  {
    if from < count && At(results, from).Made? then Lead(results, from + 1, count) else from
  }

  function Raws(results: seq<Result>, k: nat): (r: seq<string>)
    requires forall i | 0 <= i < k :: At(results, i).Made?
    ensures |r| == k
  {
    seq(k, i requires 0 <= i < k => At(results, i).raw)
  }

  /** The leading items are those of the results with the least indexes, each in the place of its index, up to the first that failed. */
  lemma LeadIs(results: seq<Result>, count: nat)
    requires FromWorkers(results, count)
    ensures var k := Lead(results, 0, count);
            && (forall r | r in results && r.idx < k :: r.outcome.Made? && Raws(results, k)[r.idx] == r.outcome.raw)
            && (k < count ==> exists r :: r in results && r.idx == k && r.outcome.GenerationError?)
  {
    var k := Lead(results, 0, count);
    hide Raws;
    forall r | r in results
      ensures At(results, r.idx) == r.outcome
    {
      var n :| 0 <= n < |results| && results[n] == r;
      AtResult(results, count, n);
    }
    if k < count {
      assert Reported(results, k);
    }
    RawsAt(results, k);
  }

  lemma RawsAt(results: seq<Result>, k: nat)
    requires forall i | 0 <= i < k :: At(results, i).Made?
    ensures forall i | 0 <= i < k :: Raws(results, k)[i] == At(results, i).raw
  {
  }

  predicate IsOf(o: Outcome, category: string) {
    o.Made? && o.category == category
  }

  /** How many of the first k items are of a category. */
  function Tally(results: seq<Result>, k: nat, category: string): nat {
    if k == 0 then 0 else Tally(results, k - 1, category) + if IsOf(At(results, k - 1), category) then 1 else 0
  }

  lemma {:induction false} SameTally(a: seq<Result>, b: seq<Result>, k: nat, category: string)
    requires forall i | 0 <= i < k :: At(a, i) == At(b, i)
    ensures Tally(a, k, category) == Tally(b, k, category)
  {
    hide At;
    if k > 0 {
      SameTally(a, b, k - 1, category);
    }
  }

  /** Over all categories the tallies sum to the number of items. */
  lemma {:induction false} TalliesSum(results: seq<Result>, k: nat, categories: seq<string>)
    requires Distinct(categories) && forall i | 0 <= i < k :: At(results, i).Made? && At(results, i).category in categories
    ensures SumOver(categories, c => Tally(results, k, c)) == k
  {
    hide At, Distinct, SumOver;
    if k == 0 {
      NothingSums(categories, c => Tally(results, k, c));
    } else {
      TalliesSum(results, k - 1, categories);
      var own := At(results, k - 1).category;
      OneSums(categories, own, 1);
      SumsAdd(categories, c => Tally(results, k, c), c => Tally(results, k - 1, c), OneOnly(own, 1));
    }
  }

  // ----- the resequencing loop

  function Held(counts: map<string, nat>, category: string): nat {
    if category in counts then counts[category] else 0
  }

  /** The items before next are written and counted; those after it that came early are pending. */
  ghost predicate Kept(seen: seq<Result>, next: nat, pending: map<nat, Outcome>, counts: map<string, nat>, items: seq<string>) {
    && (forall i | 0 <= i < next :: At(seen, i).Made?)
    && items == Raws(seen, next)
    && (forall i: nat :: i in pending <==> i >= next && At(seen, i).Made?)
    && (forall i | i in pending :: pending[i] == At(seen, i))
    && (forall c :: Held(counts, c) == Tally(seen, next, c))
  }

  lemma NextWritten(seen: seq<Result>, next: nat, pending: map<nat, Outcome>, counts: map<string, nat>, items: seq<string>)
    requires Kept(seen, next, pending, counts, items) && next in pending
    ensures pending[next].Made?
    ensures var item := pending[next];
            Kept(seen, next + 1, pending - {next}, counts[item.category := Held(counts, item.category) + 1], items + [item.raw])
  {
    hide At;
    var item := pending[next];
    assert item == At(seen, next);
    assert forall i | 0 <= i < next + 1 :: At(seen, i).Made?;
    assert Raws(seen, next + 1) == Raws(seen, next) + [item.raw];
    var after := counts[item.category := Held(counts, item.category) + 1];
    assert forall c :: Held(after, c) == Held(counts, c) + if IsOf(item, c) then 1 else 0;
    assert forall c :: Held(after, c) == Tally(seen, next + 1, c);
  }

  lemma Received(results: seq<Result>, count: nat, n: nat, next: nat, pending: map<nat, Outcome>, counts: map<string, nat>,
                 items: seq<string>)
    requires FromWorkers(results, count) && n < |results| && Kept(results[..n], next, pending, counts, items)
    ensures var r := results[n];
            Kept(results[..n + 1], next, if r.outcome.Made? then pending[r.idx := r.outcome] else pending, counts, items)
  {
    var before, seen, r := results[..n], results[..n + 1], results[n];
    assert seen[..n] == before;
    NotYetAt(before, r.idx);
    assert forall i: nat :: At(seen, i) == if i == r.idx then r.outcome else At(before, i);
    hide At;
    forall c: string
      ensures Tally(seen, next, c) == Tally(before, next, c)
    {
      SameTally(seen, before, next, c);
    }
    assert Raws(seen, next) == Raws(before, next);
  }

  /** When everything has arrived and the next item is not pending, it is the least that failed, or there is none left. */
  lemma NothingMore(results: seq<Result>, count: nat, next: nat, pending: map<nat, Outcome>, counts: map<string, nat>,
                    items: seq<string>)
    requires FromWorkers(results, count) && Kept(results, next, pending, counts, items) && next !in pending
    ensures next == Lead(results, 0, count)
  {
    NotYetAt(results, count);
  }

  lemma NoFailures(results: seq<Result>, count: nat)
    requires FromWorkers(results, count)
    ensures (forall r | r in results :: r.outcome.Made?) <==> Lead(results, 0, count) == count
  {
    var k := Lead(results, 0, count);
    if k < count {
      assert Reported(results, k);
      var r :| r in results && r.idx == k;
      var n :| 0 <= n < |results| && results[n] == r;
      AtResult(results, count, n);
    } else {
      forall r | r in results
        ensures r.outcome.Made?
      {
        var n :| 0 <= n < |results| && results[n] == r;
        AtResult(results, count, n);
      }
    }
  }

  /** What is written before all has arrived is a beginning of what will be; the items still to come make up the count. */
  lemma EnoughRoom(results: seq<Result>, count: nat, n: nat, next: nat, pending: map<nat, Outcome>, counts: map<string, nat>,
                   items: seq<string>)
    requires FromWorkers(results, count) && n <= |results| && Kept(results[..n], next, pending, counts, items)
    ensures next <= Lead(results, 0, count) && items == Raws(results, next)
    ensures next in pending ==> next < Lead(results, 0, count) && pending[next] == At(results, next)
  {
    forall i: nat | At(results[..n], i).Made?
      ensures At(results, i) == At(results[..n], i) && i < count
    {
      if forall m | 0 <= m < n :: results[m].idx != i {
        NotYetAt(results[..n], i);
      } else {
        var m :| 0 <= m < n && results[m].idx == i;
        AtLater(results, n, |results|, i);
        assert results[m] in results && results[..|results|] == results;
      }
    }
    assert next in pending ==> At(results, next).Made? && next < count;
    assert forall i | 0 <= i < next :: At(results, i).Made?;
  }

  /** Writes the pending items that are next in line. */
  method WritePending(w: FixtureWriter, ghost seen: seq<Result>, next0: nat, pending0: map<nat, Outcome>, counts0: map<string, nat>)
      returns (ok: bool, next: nat, pending: map<nat, Outcome>, counts: map<string, nat>)
    requires w.Open() && Kept(seen, next0, pending0, counts0, w.items)
    modifies w
    ensures Kept(seen, next, pending, counts, w.items) && next >= next0
    ensures ok ==> w.Open() && next !in pending && w.room == old(w.room) + Cost(next0) - Cost(next)
    ensures !ok ==> next in pending && Cost(next) <= old(w.room) + Cost(next0) < Cost(next + 1)
    ensures !ok ==> pending[next].Made? && CutShort(w.text, w.items, pending[next].raw)
  {
    assert |w.items| == next0;
    hide Kept, IsOf, Held, At, Opened, Cost, CutShort;
    next, pending, counts := next0, pending0, counts0;
    while next in pending
      invariant w.Open() && Kept(seen, next, pending, counts, w.items) && next >= next0
      invariant |w.items| == next && w.room == old(w.room) + Cost(next0) - Cost(next)
      decreases pending.Keys
    {
      NextWritten(seen, next, pending, counts, w.items);
      NextCost(next);
      var item := pending[next];
      ok := w.Write(item.raw);
      if !ok {
        return;
      }
      counts := counts[item.category := Held(counts, item.category) + 1];
      pending := pending - {next};
      next := next + 1;
    }
    ok := true;
  }

  predicate FirstFailure(results: seq<Result>, n: nat) {
    n < |results| && results[n].outcome.GenerationError? && forall m | 0 <= m < n :: results[m].outcome.Made?
  }

  /** What the loop remembers of the first n results: the index of the first that failed, if one did. */
  ghost predicate FirstNoted(results: seq<Result>, n: nat, failed: bool, idx: nat)
    requires n <= |results|
  {
    if failed then exists m | 0 <= m < n :: FirstFailure(results, m) && idx == results[m].idx
    else forall m | 0 <= m < n :: results[m].outcome.Made?
  }

  lemma NotedNext(results: seq<Result>, n: nat, failed: bool, idx: nat)
    requires n < |results| && FirstNoted(results, n, failed, idx)
    ensures FirstNoted(results, n + 1, failed || results[n].outcome.GenerationError?,
                       if !failed && results[n].outcome.GenerationError? then results[n].idx else idx)
  {
    if !failed && results[n].outcome.GenerationError? {
      assert FirstFailure(results, n);
    }
  }

  lemma NotedAtEnd(results: seq<Result>, failed: bool, idx: nat)
    requires FirstNoted(results, |results|, failed, idx)
    ensures failed ==> exists n | 0 <= n < |results| :: FirstFailure(results, n) && idx == results[n].idx
    ensures !failed <==> forall r | r in results :: r.outcome.Made?
  {
    if failed {
      var n :| 0 <= n < |results| && FirstFailure(results, n);
      assert results[n] in results;
    }
  }

  datatype Ending = Finished(counts: map<string, nat>) | GenerationFailed(idx: nat) | WriteFailed(next: nat) | Incomplete(written: nat)

  /** What the method returns when all results have been taken. */
  function EndOf(failed: bool, firstFailed: nat, written: nat, count: nat, counts: map<string, nat>): Ending {
    if failed then GenerationFailed(firstFailed) else if written != count then Incomplete(written) else Finished(counts)
  }

  lemma AllTaken(results: seq<Result>, count: nat, next: nat, pending: map<nat, Outcome>, counts: map<string, nat>,
                 items: seq<string>, failed: bool, firstFailed: nat)
    requires FromWorkers(results, count) && Kept(results, next, pending, counts, items) && next !in pending
    requires FirstNoted(results, |results|, failed, firstFailed)
    ensures var e := EndOf(failed, firstFailed, next, count, counts);
            && !e.Incomplete? && !e.WriteFailed? && next == Lead(results, 0, count) && items == Raws(results, next)
            && (e.Finished? <==> forall r | r in results :: r.outcome.Made?)
            && (e.Finished? ==> next == count && forall c :: Held(e.counts, c) == Tally(results, count, c))
            && (e.GenerationFailed? ==> exists n | 0 <= n < |results| :: FirstFailure(results, n) && e.idx == results[n].idx)
  {
    NotedAtEnd(results, failed, firstFailed);
    NothingMore(results, count, next, pending, counts, items);
    NoFailures(results, count);
    hide At, Lead, FromWorkers, Held, Tally, FirstFailure;
  }

  /**
   Exactly the items before the least failed index are written, in order, and counted by category, unless the file takes too
   few writes for them; the run succeeds if and only if nothing failed, and never ends as incomplete.
   */
  method GenerateAndWriteFixtures(count: nat, results: seq<Result>, w: FixtureWriter) returns (e: Ending)
    requires FromWorkers(results, count) && w.Open() && w.items == []
    modifies w
    ensures !e.Incomplete? && (e.WriteFailed? <==> old(w.room) < Cost(Lead(results, 0, count)))
    ensures !e.WriteFailed? ==> w.Open() && w.items == Raws(results, Lead(results, 0, count))
                                && w.room == old(w.room) - Cost(Lead(results, 0, count))
    ensures !e.WriteFailed? ==> (e.Finished? <==> forall r | r in results :: r.outcome.Made?)
    ensures e.Finished? ==> Lead(results, 0, count) == count && forall c :: Held(e.counts, c) == Tally(results, count, c)
    ensures e.GenerationFailed? ==> exists n | 0 <= n < |results| :: FirstFailure(results, n) && e.idx == results[n].idx
    ensures e.WriteFailed? ==> e.next < Lead(results, 0, count) && w.items == Raws(results, e.next)
                               && CutShort(w.text, w.items, At(results, e.next).raw)
                               && Cost(e.next) <= old(w.room) < Cost(e.next + 1)
  {
    var pending: map<nat, Outcome>, counts: map<string, nat>, next, written := map[], map[], 0, 0;
    var failed, firstFailed := false, 0;
    assert Kept(results[..0], 0, pending, counts, w.items);
    assert Cost(0) == 0 && FirstNoted(results, 0, failed, firstFailed);
    hide Kept, At, Raws, Lead, Tally, FromWorkers, Held, Cost, Opened, FirstFailure, FirstNoted, CutShort;
    for n := 0 to |results|
      invariant w.Open() && Kept(results[..n], next, pending, counts, w.items) && next !in pending && written == next
      invariant w.room == old(w.room) - Cost(next)
      invariant FirstNoted(results, n, failed, firstFailed)
    {
      Received(results, count, n, next, pending, counts, w.items);
      NotedNext(results, n, failed, firstFailed);
      var res := results[n];
      if res.outcome.GenerationError? {
        if !failed {
          failed, firstFailed := true, res.idx;
        }
        continue;
      }
      pending := pending[res.idx := res.outcome];
      var ok;
      ok, next, pending, counts := WritePending(w, results[..n + 1], next, pending, counts);
      EnoughRoom(results, count, n + 1, next, pending, counts, w.items);
      if !ok {
        NextCost(next + 1);
        return WriteFailed(next);
      }
      written := next;
    }
    assert results[..|results|] == results;
    AllTaken(results, count, next, pending, counts, w.items, failed, firstFailed);
    if failed {
      return GenerationFailed(firstFailed);
    }
    if written != count {
      return Incomplete(written);
    }
    return Finished(counts);
  }

  /**
   The command's run, with a file that takes `room` writes after its first: a complete run leaves the array print of all
   items, which reads back as them, if and only if the file takes the end of it too, and is finalized if and only if it then
   closes; a failed write leaves a beginning of one item more; after a failed generation the program exits before the deferred
   close, so the array of the items before it stays open.
   */
  method RunGenfix(count: nat, results: seq<Result>, room: nat, partial: nat, closes: bool)
      returns (e: Ending, finalized: bool, w: FixtureWriter)
    requires FromWorkers(results, count)
    ensures fresh(w) && !e.Incomplete? && (e.WriteFailed? <==> room < Cost(Lead(results, 0, count)))
    ensures !e.WriteFailed? ==> (e.Finished? <==> forall r | r in results :: r.outcome.Made?)
    ensures finalized <==> e.Finished? && room >= 3 * count + 1 && closes
    ensures e.Finished? ==>
              Lead(results, 0, count) == count && forall r | r in results :: Raws(results, count)[r.idx] == r.outcome.raw
    ensures e.GenerationFailed? ==>
              exists n | 0 <= n < |results| :: && results[n].idx == e.idx && results[n].outcome.GenerationError?
                                               && forall m | 0 <= m < n :: results[m].outcome.Made?
    ensures e.Finished? && room >= 3 * count + 1 ==> w.text == "[\n" + Body(Raws(results, count))
    ensures e.Finished? ==> Opened(Raws(results, count)) <= w.text <= "[\n" + Body(Raws(results, count))
    ensures e.GenerationFailed? ==> w.text == Opened(Raws(results, Lead(results, 0, count)))
    ensures e.WriteFailed? ==> e.next < Lead(results, 0, count)
                               && CutShort(w.text, Raws(results, e.next), At(results, e.next).raw)
  {
    LeadIs(results, count);
    hide FromWorkers, At, Lead, Raws, Opened, Body;
    w := new FixtureWriter(room, partial, closes);
    e := GenerateAndWriteFixtures(count, results, w);
    finalized := false;
    if e.Finished? {
      finalized := w.Close();
    }
  }
}
