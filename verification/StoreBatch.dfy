/** StoreBatch: inputs are validated, split between the parser path and the plain path, and answered each in its slot. */
module StoreBatch {
  import opened Optional
  import opened Text

  datatype Kind = RawTurn | Observation | Summary | Event | Unknown

  datatype Input = Input(tenant: string, content: string, kind: Kind)
  datatype Prepared = Prepared(idx: nat, input: Input, kind: Kind)

  // resolveKind
  function ResolveKind(k: Kind): Kind {
    if k == Unknown then RawTurn else k
  }

  predicate Acceptable(i: Input, tenantExists: string -> bool) {
    !Blank(i.tenant) && !Blank(i.content) && tenantExists(TrimSpace(i.tenant))
  }

  function Prepare(i: Input, idx: nat): Prepared {
    Prepared(idx, i.(tenant := TrimSpace(i.tenant)), ResolveKind(i.kind))
  }

  /** Each tenant is looked up once; one bad input refuses the whole batch. */
  method PrepareStoreInputs(inputs: seq<Input>, tenantExists: string -> bool) returns (r: Option<seq<Prepared>>)
    ensures r.Some? <==> forall i | 0 <= i < |inputs| ::
                           !Blank(inputs[i].tenant) && !Blank(inputs[i].content) && tenantExists(TrimSpace(inputs[i].tenant))
    ensures r.Some? ==> |r.value| == |inputs| && forall i | 0 <= i < |inputs| :: r.value[i] == Prepare(inputs[i], i)
    ensures r.Some? ==> forall i | 0 <= i < |inputs| :: IsItem(r.value[i], inputs, i)
  {
    var prepared := [];
    var checked := {};
    for i := 0 to |inputs|
      invariant |prepared| == i
      invariant forall j | 0 <= j < i :: prepared[j] == Prepare(inputs[j], j) && Acceptable(inputs[j], tenantExists)
      invariant forall t | t in checked :: tenantExists(t)
    {
      var tenant := TrimSpace(inputs[i].tenant);
      if tenant == "" || Blank(inputs[i].content) {
        return None;
      }
      if tenant !in checked {
        if !tenantExists(tenant) {
          return None;
        }
        checked := checked + {tenant};
      }
      prepared := prepared + [Prepared(i, inputs[i].(tenant := tenant), ResolveKind(inputs[i].kind))];
    }
    r := Some(prepared);
  }

  predicate Parses(p: Prepared, parserOn: bool) {
    parserOn && p.kind == RawTurn
  }

  function Select(ps: seq<Prepared>, parserOn: bool, parsed: bool): seq<Prepared> {
    if ps == [] then []
    else
      var last := ps[|ps| - 1];
      Select(ps[..|ps| - 1], parserOn, parsed) + if Parses(last, parserOn) == parsed then [last] else []
  }

  /** The place of the i-th input within its own path. */
  function Rank(ps: seq<Prepared>, parserOn: bool, i: nat): nat
    requires i < |ps|
  {
    |Select(ps[..i], parserOn, Parses(ps[i], parserOn))|
  }

  lemma {:induction false} RankFindsInput(ps: seq<Prepared>, parserOn: bool, i: nat)
    requires i < |ps|
    ensures var path := Select(ps, parserOn, Parses(ps[i], parserOn));
            Rank(ps, parserOn, i) < |path| && path[Rank(ps, parserOn, i)] == ps[i]
    decreases |ps|
  {
    var less := ps[..|ps| - 1];
    if i < |less| {
      RankFindsInput(less, parserOn, i);
      assert less[..i] == ps[..i];
    }
  }

  lemma {:induction false} SelectedIndices(ps: seq<Prepared>, parserOn: bool, parsed: bool, k: nat)
    requires k < |Select(ps, parserOn, parsed)| && forall i | 0 <= i < |ps| :: ps[i].idx == i
    ensures var p := Select(ps, parserOn, parsed)[k];
            p.idx < |ps| && ps[p.idx] == p && Parses(p, parserOn) == parsed && Rank(ps, parserOn, p.idx) == k
    decreases |ps|
  {
    var less := ps[..|ps| - 1];
    var p := Select(ps, parserOn, parsed)[k];
    if k < |Select(less, parserOn, parsed)| {
      SelectedIndices(less, parserOn, parsed, k);
      assert less[..p.idx] == ps[..p.idx];
    }
  }

  method Scatter<T>(results0: seq<T>, ps: seq<Prepared>, path: seq<Prepared>, stored: seq<T>, parserOn: bool, ghost parsed: bool)
      returns (results: seq<T>)
    requires |results0| == |ps| && (forall i | 0 <= i < |ps| :: ps[i].idx == i)
    requires path == Select(ps, parserOn, parsed) && |stored| == |path|
    ensures |results| == |ps|
    ensures forall i | 0 <= i < |ps| ::
              if Parses(ps[i], parserOn) == parsed then Rank(ps, parserOn, i) < |stored| && results[i] == stored[Rank(ps, parserOn, i)]
              else results[i] == results0[i]
  {
    results := results0;
    for k := 0 to |path|
      invariant |results| == |ps|
      invariant forall i | 0 <= i < |ps| ::
                  results[i] == if Parses(ps[i], parserOn) == parsed && Rank(ps, parserOn, i) < k
                                then stored[Rank(ps, parserOn, i)] else results0[i]
    {
      SelectedIndices(ps, parserOn, parsed, k);
      results := results[path[k].idx := stored[k]];
      forall i | 0 <= i < |ps| && Parses(ps[i], parserOn) == parsed && Rank(ps, parserOn, i) == k
        ensures i == path[k].idx
      {
        RankFindsInput(ps, parserOn, i);
      }
    }
    forall i | 0 <= i < |ps| && Parses(ps[i], parserOn) == parsed
      ensures Rank(ps, parserOn, i) < |path|
    {
      RankFindsInput(ps, parserOn, i);
    }
  }

  method Split(ps: seq<Prepared>, parserOn: bool) returns (parserItems: seq<Prepared>, nonParser: seq<Prepared>)
    ensures parserItems == Select(ps, parserOn, true) && nonParser == Select(ps, parserOn, false)
  {
    parserItems, nonParser := [], [];
    for i := 0 to |ps|
      invariant parserItems == Select(ps[..i], parserOn, true) && nonParser == Select(ps[..i], parserOn, false)
    {
      assert ps[..i + 1][..i] == ps[..i];
      if Parses(ps[i], parserOn) {
        parserItems := parserItems + [ps[i]];
      } else {
        nonParser := nonParser + [ps[i]];
      }
    }
    assert ps[..|ps|] == ps;
  }

  function PrepareAll(inputs: seq<Input>): (ps: seq<Prepared>)
    ensures |ps| == |inputs| && forall i | 0 <= i < |inputs| :: ps[i] == Prepare(inputs[i], i)
  {
    seq(|inputs|, i requires 0 <= i < |inputs| => Prepare(inputs[i], i))
  }

  /** How the two paths store what they are given: one result for each item, in order, or none when they err. */
  datatype Paths<!T> = Paths(parsed: seq<Prepared> -> Option<seq<T>>, plain: seq<Prepared> -> Option<seq<T>>)

  /** A path without items is not called. */
  function Stored<T>(ps: seq<Prepared>, parserOn: bool, parsed: bool, p: Paths<T>): Option<seq<T>> {
    var path := Select(ps, parserOn, parsed);
    if path == [] then Some([]) else if parsed then p.parsed(path) else p.plain(path)
  }

  ghost predicate OneForOne<T(!new)>(p: Paths<T>) {
    forall ps :: (p.parsed(ps).Some? ==> |p.parsed(ps).value| == |ps|) && (p.plain(ps).Some? ==> |p.plain(ps).value| == |ps|)
  }

  /** What is handed on for input i: its place, its tenant trimmed, and its kind, a raw turn when it says none. */
  predicate IsItem(item: Prepared, inputs: seq<Input>, i: nat) {
    && i < |inputs|
    && item == Prepared(i, Input(TrimSpace(inputs[i].tenant), inputs[i].content, inputs[i].kind),
                        if inputs[i].kind == Unknown then RawTurn else inputs[i].kind)
  }

  /** A raw turn is parsed exactly when the parser is on, and nothing else ever is. */
  predicate IsParsed(i: Input, parserOn: bool) {
    parserOn && (i.kind == RawTurn || i.kind == Unknown)
  }

  /** The items of one path: those of its inputs, every one of them, in the order of the inputs. */
  ghost predicate IsPath(path: seq<Prepared>, inputs: seq<Input>, parserOn: bool, parsed: bool) {
    && (forall k | 0 <= k < |path| :: IsItem(path[k], inputs, path[k].idx) && IsParsed(inputs[path[k].idx], parserOn) == parsed)
    && (forall k, m | 0 <= k < m < |path| :: path[k].idx < path[m].idx)
    && (forall i | 0 <= i < |inputs| && IsParsed(inputs[i], parserOn) == parsed :: exists k :: 0 <= k < |path| && path[k].idx == i)
  }

  lemma {:induction false} SelectIsOrdered(ps: seq<Prepared>, parserOn: bool, parsed: bool, k: nat, m: nat)
    requires k < m < |Select(ps, parserOn, parsed)| && forall i | 0 <= i < |ps| :: ps[i].idx == i
    ensures Select(ps, parserOn, parsed)[k].idx < Select(ps, parserOn, parsed)[m].idx
    decreases |ps|
  {
    var less := ps[..|ps| - 1];
    if m < |Select(less, parserOn, parsed)| {
      SelectIsOrdered(less, parserOn, parsed, k, m);
    } else {
      SelectedIndices(less, parserOn, parsed, k);
    }
  }

  lemma SelectIsPath(inputs: seq<Input>, parserOn: bool, parsed: bool)
    ensures IsPath(Select(PrepareAll(inputs), parserOn, parsed), inputs, parserOn, parsed)
  {
    var ps := PrepareAll(inputs);
    var path := Select(ps, parserOn, parsed);
    hide Select, Rank;
    forall k | 0 <= k < |path|
      ensures IsItem(path[k], inputs, path[k].idx) && IsParsed(inputs[path[k].idx], parserOn) == parsed
    {
      SelectedIndices(ps, parserOn, parsed, k);
    }
    forall k, m | 0 <= k < m < |path|
      ensures path[k].idx < path[m].idx
    {
      SelectIsOrdered(ps, parserOn, parsed, k, m);
    }
    forall i | 0 <= i < |inputs| && IsParsed(inputs[i], parserOn) == parsed
      ensures exists k :: 0 <= k < |path| && path[k].idx == i
    {
      RankFindsInput(ps, parserOn, i);
    }
  }

  /** Result i is what the path of input i answers at the place where input i stands in it. */
  ghost predicate AnswersInput<T>(result: T, inputs: seq<Input>, i: nat, parserOn: bool, p: Paths<T>)
    requires i < |inputs|
  {
    var path := Select(PrepareAll(inputs), parserOn, IsParsed(inputs[i], parserOn));
    var stored := if IsParsed(inputs[i], parserOn) then p.parsed(path) else p.plain(path);
    stored.Some? && exists k :: 0 <= k < |path| && IsItem(path[k], inputs, i) && k < |stored.value| && result == stored.value[k]
  }

  lemma Answered<T>(result: T, inputs: seq<Input>, i: nat, parserOn: bool, p: Paths<T>)
    requires i < |inputs|
    requires var ps := PrepareAll(inputs);
             var parsed := Parses(ps[i], parserOn);
             var path, stored := Select(ps, parserOn, parsed), Stored(ps, parserOn, parsed, p);
             stored.Some? && |stored.value| == |path| && Rank(ps, parserOn, i) < |path| && result == stored.value[Rank(ps, parserOn, i)]
    ensures AnswersInput(result, inputs, i, parserOn, p)
  {
    hide Select, Rank;
    RankFindsInput(PrepareAll(inputs), parserOn, i);
  }

  /**
   All inputs are answered or none is: one bad input, or either path failing, refuses the batch. `blank` stands for the
   zero memory that results start from.
   */
  method StoreAll<T(!new)>(inputs: seq<Input>, tenantExists: string -> bool, parserOn: bool, blank: T, p: Paths<T>)
      returns (r: Option<seq<T>>)
    requires OneForOne(p)
    ensures IsPath(Select(PrepareAll(inputs), parserOn, true), inputs, parserOn, true)
    ensures IsPath(Select(PrepareAll(inputs), parserOn, false), inputs, parserOn, false)
    ensures var toParse, plain := Select(PrepareAll(inputs), parserOn, true), Select(PrepareAll(inputs), parserOn, false);
            r.Some? <==>
              && (forall i | 0 <= i < |inputs| ::
                    !Blank(inputs[i].tenant) && !Blank(inputs[i].content) && tenantExists(TrimSpace(inputs[i].tenant)))
              && (toParse == [] || p.parsed(toParse).Some?) && (plain == [] || p.plain(plain).Some?)
    ensures r.Some? ==>
              && |r.value| == |inputs|
              && forall i | 0 <= i < |inputs| :: AnswersInput(r.value[i], inputs, i, parserOn, p)
  {
    SelectIsPath(inputs, parserOn, true);
    SelectIsPath(inputs, parserOn, false);
    hide Select, Rank, Prepare, IsPath, AnswersInput;
    var prepared := PrepareStoreInputs(inputs, tenantExists);
    if prepared.None? {
      return None;
    }
    var ps := prepared.value;
    assert ps == PrepareAll(inputs);
    IndicesInOrder(inputs);
    var parserItems, nonParser := Split(ps, parserOn);
    var results := seq(|ps|, _ => blank);
    var stored: Option<seq<T>> := Some([]);
    if |parserItems| > 0 {
      stored := p.parsed(parserItems);
      if stored.None? {
        return None;
      }
    }
    results := Scatter(results, ps, parserItems, stored.value, parserOn, true);
    stored := Some([]);
    if |nonParser| > 0 {
      stored := p.plain(nonParser);
      if stored.None? {
        return None;
      }
    }
    results := Scatter(results, ps, nonParser, stored.value, parserOn, false);
    forall i | 0 <= i < |ps|
      ensures AnswersInput(results[i], inputs, i, parserOn, p)
    {
      RankFindsInput(ps, parserOn, i);
      Answered(results[i], inputs, i, parserOn, p);
    }
    r := Some(results);
  }

  lemma IndicesInOrder(inputs: seq<Input>)
    ensures forall i | 0 <= i < |inputs| :: PrepareAll(inputs)[i].idx == i
  {
  }
}
