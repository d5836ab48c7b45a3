/** storeBatchWithParser: a batch of parsed turns is staged, deduplicated, embedded once per text, stored and answered. */
module ParserBatch {
  import opened Optional
  import opened Text
  import opened ParsedFacts
  import E = EntityFacts

  datatype Parsed = Parsed(tenant: string, content: string, facts: seq<ParsedFact>, failed: bool)

  /** What the batch meets: the stores, the rules, the embedder and whether raw turns are stored. */
  datatype Env = Env(store: Store, rows: seq<E.Row>, c: Setup, embed: string -> seq<real>, storeRaw: bool)

  /** `origin` says which turn, and which of its facts, a staged write was made for. */
  datatype Origin = Raw(turn: nat) | Fact(turn: nat, fact: nat)
  datatype Write = Write(memory: Memory, vector: seq<real>, tupleKey: string, dropped: bool, replacedBy: int, origin: Origin)
  datatype Ref = NoRef | Staged(index: nat) | Existing(id: nat)

  // ----- texts

  function EmbeddingText(r: Rules, f: ParsedFact): string {
    var content := r.normalize(f.content);
    var queryView := r.specific(f.queryView);
    if queryView == "" then content else content + "\n" + queryView
  }

  function TextsOf(p: Parsed, r: Rules): seq<string> {
    [p.content] + if p.failed then [] else seq(|p.facts|, k requires 0 <= k < |p.facts| => EmbeddingText(r, p.facts[k]))
  }

  ghost function NonEmpty(texts: seq<string>): set<string> {
    set t | t in texts && t != ""
  }

  ghost predicate Needs(ps: seq<Parsed>, r: Rules, text: string) {
    exists i | 0 <= i < |ps| :: text in TextsOf(ps[i], r)
  }

  method PushText(texts: seq<string>, seen: set<string>, text: string) returns (texts': seq<string>, seen': set<string>)
    requires Collected(texts, seen)
    ensures Collected(texts', seen') && seen' == if text == "" then seen else seen + {text}
  {
    if text == "" || text in seen {
      return texts, seen;
    }
    texts', seen' := texts + [text], seen + {text};
  }

  /** Every text once, none empty. */
  ghost predicate Collected(texts: seq<string>, seen: set<string>) {
    && "" !in seen && (forall t :: t in texts <==> t in seen)
    && (forall i, j | 0 <= i < j < |texts| :: texts[i] != texts[j])
  }

  lemma NonEmptyNext(texts: seq<string>, k: nat)
    requires k < |texts|
    ensures NonEmpty(texts[..k + 1]) == if texts[k] == "" then NonEmpty(texts[..k]) else NonEmpty(texts[..k]) + {texts[k]}
  {
    assert texts[..k + 1] == texts[..k] + [texts[k]];
  }

  method PushTurn(texts: seq<string>, seen: set<string>, p: Parsed, r: Rules) returns (texts': seq<string>, seen': set<string>)
    requires Collected(texts, seen)
    ensures Collected(texts', seen') && seen' == seen + NonEmpty(TextsOf(p, r))
  {
    texts', seen' := PushText(texts, seen, p.content);
    if p.failed {
      return;
    }
    ghost var all := TextsOf(p, r);
    for k := 0 to |p.facts|
      invariant Collected(texts', seen') && seen' == seen + NonEmpty(all[..k + 1])
    {
      NonEmptyNext(all, k + 1);
      texts', seen' := PushText(texts', seen', EmbeddingText(r, p.facts[k]));
    }
    assert all[..|p.facts| + 1] == all;
  }

  /** The unique texts to embed: each needed one exactly once. */
  method CollectTexts(ps: seq<Parsed>, r: Rules) returns (texts: seq<string>)
    ensures forall i, j | 0 <= i < j < |texts| :: texts[i] != texts[j]
    ensures forall t :: t in texts <==> t != "" && Needs(ps, r, t)
  {
    hide TextsOf;
    texts := [];
    var seen := {};
    for i := 0 to |ps|
      invariant Collected(texts, seen)
      invariant forall t :: t in seen <==> t != "" && exists j | 0 <= j < i :: t in TextsOf(ps[j], r)
    {
      texts, seen := PushTurn(texts, seen, ps[i], r);
    }
  }

  method EmbedTexts(texts: seq<string>, embed: string -> seq<real>) returns (byText: map<string, seq<real>>)
    ensures byText.Keys == set t | t in texts
    ensures forall t | t in byText :: byText[t] == embed(t)
  {
    byText := map[];
    for i := 0 to |texts|
      invariant byText.Keys == set t | t in texts[..i]
      invariant forall t | t in byText :: byText[t] == embed(t)
    {
      assert texts[..i + 1] == texts[..i] + [texts[i]];
      byText := byText[texts[i] := embed(texts[i])];
    }
    assert texts[..|texts|] == texts;
  }

  // ----- looking among the staged writes, newest first

  function TupleKey(t: Option<Tuple>): string {
    if t.None? then "" else t.value.entity + "|" + t.value.relation + "|" + t.value.value
  }

  /** Among the first n writes; -1 when there is none. */
  function LastWithKey(ws: seq<Write>, n: nat, tenant: string, key: string): (i: int)
    requires n <= |ws|
    ensures -1 <= i < n
    ensures i >= 0 ==> !ws[i].dropped && ws[i].memory.tenant == tenant && ws[i].memory.canonicalKey == key
    ensures forall j | i < j < n :: ws[j].dropped || ws[j].memory.tenant != tenant || ws[j].memory.canonicalKey != key
  {
    if n == 0 then -1
    else if !ws[n - 1].dropped && ws[n - 1].memory.tenant == tenant && ws[n - 1].memory.canonicalKey == key then n - 1
    else LastWithKey(ws, n - 1, tenant, key)
  }

  /** Among the first n writes; -1 when there is none. */
  function LastWithTuple(ws: seq<Write>, n: nat, tenant: string, key: string): (i: int)
    requires n <= |ws|
    ensures -1 <= i < n
    ensures i >= 0 ==> !ws[i].dropped && ws[i].memory.tenant == tenant && ws[i].tupleKey == key
    ensures forall j | i < j < n :: ws[j].dropped || ws[j].memory.tenant != tenant || ws[j].tupleKey != key
  {
    if n == 0 then -1
    else if !ws[n - 1].dropped && ws[n - 1].memory.tenant == tenant && ws[n - 1].tupleKey == key then n - 1
    else LastWithTuple(ws, n - 1, tenant, key)
  }

  method FindPendingByCanonicalKey(ws: seq<Write>, tenant: string, key: string) returns (r: int)
    ensures r == if Blank(key) then -1 else LastWithKey(ws, |ws|, tenant, key)
  {
    hide Blank;
    if Blank(key) {
      return -1;
    }
    r := |ws| - 1;
    while r >= 0
      invariant -1 <= r < |ws| && LastWithKey(ws, |ws|, tenant, key) == LastWithKey(ws, r + 1, tenant, key)
    {
      if !ws[r].dropped && ws[r].memory.tenant == tenant && ws[r].memory.canonicalKey == key {
        return;
      }
      r := r - 1;
    }
  }

  method FindPendingByRelationTuple(ws: seq<Write>, tenant: string, key: string) returns (r: int)
    ensures r == if Blank(key) then -1 else LastWithTuple(ws, |ws|, tenant, key)
  {
    hide Blank;
    if Blank(key) {
      return -1;
    }
    r := |ws| - 1;
    while r >= 0
      invariant -1 <= r < |ws| && LastWithTuple(ws, |ws|, tenant, key) == LastWithTuple(ws, r + 1, tenant, key)
    {
      if !ws[r].dropped && ws[r].memory.tenant == tenant && ws[r].tupleKey == key {
        return;
      }
      r := r - 1;
    }
  }

  /** Following replacements: `rank` witnesses that they do not go round in circles. */
  method ResolveParserPendingIndex(ws: seq<Write>, index: int, ghost rank: int -> nat) returns (r: int)
    requires forall i | 0 <= i < |ws| && ws[i].dropped && ws[i].replacedBy >= 0 :: rank(ws[i].replacedBy) < rank(i)
    ensures r == -1 || (0 <= r < |ws| && !ws[r].dropped)
    ensures 0 <= index < |ws| && !ws[index].dropped ==> r == index
    ensures index < 0 || index >= |ws| ==> r == -1
  {
    r := index;
    while 0 <= r < |ws|
      invariant 0 <= index < |ws| && !ws[index].dropped ==> r == index
      invariant index < 0 || index >= |ws| ==> r == index
      decreases rank(r)
    {
      if !ws[r].dropped {
        return;
      }
      if ws[r].replacedBy < 0 {
        return -1;
      }
      r := ws[r].replacedBy;
    }
    r := -1;
  }

  // ----- staging

  function KeyOf(p: Parsed, k: nat, c: Setup): string
    requires k < |p.facts|
  {
    c.rules.factKey(p.content, k, p.facts[k])
  }

  function RawWrite(p: Parsed, j: nat, e: Env): Write {
    Write(Memory(p.tenant, p.content, e.c.rules.rawKey(p.content), true), e.embed(p.content), "", false, -1, Raw(j))
  }

  function FactWrite(p: Parsed, j: nat, k: nat, e: Env): Write
    requires k < |p.facts|
  {
    var f := p.facts[k];
    Write(Memory(p.tenant, e.c.rules.normalize(f.content), KeyOf(p, k, e.c), false), e.embed(EmbeddingText(e.c.rules, f)),
          TupleKey(TupleOf(e.c.rules, f)), false, -1, Fact(j, k))
  }

  /** applyParsedFactWithPending without the staging: where fact k of turn j already is. */
  function Find(ws: seq<Write>, p: Parsed, k: nat, e: Env): Ref
    requires k < |p.facts|
  {
    var f := p.facts[k];
    var key := KeyOf(p, k, e.c);
    var tupleKey := TupleKey(TupleOf(e.c.rules, f));
    var byKey := if Blank(key) then -1 else LastWithKey(ws, |ws|, p.tenant, key);
    if byKey >= 0 then Staged(byKey)
    else
      var byTuple := if tupleKey == "" || Blank(tupleKey) then -1 else LastWithTuple(ws, |ws|, p.tenant, tupleKey);
      if byTuple >= 0 then Staged(byTuple)
      else Stored(p, k, e)
  }

  function Stored(p: Parsed, k: nat, e: Env): Ref
    requires k < |p.facts|
  {
    var byKey := FindByKey(e.store, p.tenant, KeyOf(p, k, e.c));
    if byKey.Some? then Existing(byKey.value)
    else
      var byTuple := FindByTuple(e.store, e.rows, p.tenant, p.facts[k], e.c);
      if byTuple.Some? then Existing(byTuple.value) else NoRef
  }

  function StageFact(ws: seq<Write>, p: Parsed, j: nat, k: nat, e: Env): (seq<Write>, Ref)
    requires k < |p.facts|
  {
    if !Storable(e.c.rules, p.facts[k]) then (ws, NoRef)
    else
      var found := Find(ws, p, k, e);
      if found.NoRef? then (ws + [FactWrite(p, j, k, e)], Staged(|ws|)) else (ws, found)
  }

  /** The first k facts of a turn; the second part is where the first storable one ended up. */
  function StageFacts(ws: seq<Write>, p: Parsed, j: nat, k: nat, e: Env): (seq<Write>, Ref)
    requires k <= |p.facts|
  {
    if k == 0 then (ws, NoRef)
    else
      var (ws', first) := StageFacts(ws, p, j, k - 1, e);
      var (ws'', ref) := StageFact(ws', p, j, k - 1, e);
      (ws'', if first.NoRef? then ref else first)
  }

  function StageTurn(ws: seq<Write>, p: Parsed, j: nat, e: Env): (seq<Write>, Ref) {
    if p.failed then (ws + [RawWrite(p, j, e)], Staged(|ws|))
    else if e.storeRaw then (StageFacts(ws + [RawWrite(p, j, e)], p, j, |p.facts|, e).0, Staged(|ws|))
    else
      var (ws', first) := StageFacts(ws, p, j, |p.facts|, e);
      if first.NoRef? then (ws' + [RawWrite(p, j, e)], Staged(|ws'|)) else (ws', first)
  }

  function StageAll(ps: seq<Parsed>, n: nat, e: Env): (seq<Write>, seq<Ref>)
    requires n <= |ps|
  {
    if n == 0 then ([], [])
    else
      var (ws, refs) := StageAll(ps, n - 1, e);
      var (ws', ref) := StageTurn(ws, ps[n - 1], n - 1, e);
      (ws', refs + [ref])
  }

  // ----- what staging gives

  /** Every staged write is what its origin calls for, with the vector of its own text, and none is dropped. */
  ghost predicate Faithful(ws: seq<Write>, ps: seq<Parsed>, e: Env) {
    forall i | 0 <= i < |ws| ::
      match ws[i].origin
      case Raw(j) => j < |ps| && ws[i] == RawWrite(ps[j], j, e)
      case Fact(j, k) => j < |ps| && k < |ps[j].facts| && Storable(e.c.rules, ps[j].facts[k]) && ws[i] == FactWrite(ps[j], j, k, e)
  }

  /** No canonical key, and no relation tuple, is staged for two facts of a tenant, nor is one staged that is stored. */
  ghost predicate DistinctFacts(ws: seq<Write>, ps: seq<Parsed>, e: Env) {
    && (forall a, b | 0 <= a < b < |ws| && ws[a].origin.Fact? && ws[b].origin.Fact? && ws[a].memory.tenant == ws[b].memory.tenant ::
          && ws[a].memory.canonicalKey != ws[b].memory.canonicalKey
          && (ws[a].tupleKey != "" ==> ws[a].tupleKey != ws[b].tupleKey))
    && (forall a | 0 <= a < |ws| && ws[a].origin.Fact? ::
          FindByKey(e.store, ws[a].memory.tenant, ws[a].memory.canonicalKey).None?)
    && (forall a | 0 <= a < |ws| && ws[a].origin.Fact? ::
          && ws[a].origin.turn < |ps| && ws[a].origin.fact < |ps[ws[a].origin.turn].facts|
          && FindByTuple(e.store, e.rows, ws[a].memory.tenant, ps[ws[a].origin.turn].facts[ws[a].origin.fact], e.c).None?)
  }

  /** A reference to fact k of p: a staged write with its key or its tuple, or what the stores gave for it. */
  ghost predicate RefersTo(ref: Ref, ws: seq<Write>, p: Parsed, k: nat, e: Env)
    requires k < |p.facts|
  {
    match ref
    case NoRef => false
    case Staged(i) =>
      && i < |ws| && ws[i].memory.tenant == p.tenant
      && (ws[i].memory.canonicalKey == KeyOf(p, k, e.c)
          || (ws[i].tupleKey != "" && ws[i].tupleKey == TupleKey(TupleOf(e.c.rules, p.facts[k]))))
    case Existing(id) =>
      id in e.store.memories && Stored(p, k, e) == ref
  }

  ghost predicate FirstStorable(p: Parsed, k: nat, r: Rules) {
    k < |p.facts| && Storable(r, p.facts[k]) && forall m | 0 <= m < k :: !Storable(r, p.facts[m])
  }

  /** The answer to turn j: its raw turn when that is stored or nothing else is, and otherwise its first storable fact. */
  ghost predicate Answers(ref: Ref, ws: seq<Write>, p: Parsed, j: nat, e: Env) {
    if p.failed || e.storeRaw || forall k | 0 <= k < |p.facts| :: !Storable(e.c.rules, p.facts[k])
    then ref.Staged? && ref.index < |ws| && ws[ref.index].origin == Raw(j)
    else exists k :: FirstStorable(p, k, e.c.rules) && RefersTo(ref, ws, p, k, e)
  }

  lemma TupleKeyIsNotBlank(t: Option<Tuple>)
    requires t.Some?
    ensures TupleKey(t) != "" && !Blank(TupleKey(t))
  {
    NonSpaceIsNotBlank(TupleKey(t), |t.value.entity|);
  }

  lemma RefersStill(ref: Ref, ws: seq<Write>, later: seq<Write>, p: Parsed, k: nat, e: Env)
    requires k < |p.facts| && ws <= later && RefersTo(ref, ws, p, k, e)
    ensures RefersTo(ref, later, p, k, e)
  {
  }

  lemma FoundRefers(ws: seq<Write>, p: Parsed, k: nat, e: Env)
    requires k < |p.facts| && !Find(ws, p, k, e).NoRef?
    ensures RefersTo(Find(ws, p, k, e), ws, p, k, e)
  {
  }

  lemma NotFoundIsNew(ws: seq<Write>, ps: seq<Parsed>, j: nat, k: nat, e: Env)
    requires j < |ps| && k < |ps[j].facts| && KeysNotBlank(e.c) && Faithful(ws, ps, e)
    requires Find(ws, ps[j], k, e).NoRef?
    ensures var w := FactWrite(ps[j], j, k, e);
            && FindByKey(e.store, w.memory.tenant, w.memory.canonicalKey).None?
            && FindByTuple(e.store, e.rows, w.memory.tenant, ps[j].facts[k], e.c).None?
            && forall a | 0 <= a < |ws| && ws[a].memory.tenant == w.memory.tenant ::
                 ws[a].memory.canonicalKey != w.memory.canonicalKey && (w.tupleKey != "" ==> ws[a].tupleKey != w.tupleKey)
  {
    var p := ps[j];
    var t := TupleOf(e.c.rules, p.facts[k]);
    if t.Some? { TupleKeyIsNotBlank(t); }
    assert !Blank(KeyOf(p, k, e.c));
    forall a | 0 <= a < |ws|
      ensures !ws[a].dropped
    {
    }
  }

  lemma AppendFactKeeps(ws: seq<Write>, w: Write, ps: seq<Parsed>, j: nat, k: nat, e: Env)
    requires DistinctFacts(ws, ps, e) && FindByKey(e.store, w.memory.tenant, w.memory.canonicalKey).None?
    requires w.origin == Fact(j, k) && j < |ps| && k < |ps[j].facts|
    requires FindByTuple(e.store, e.rows, w.memory.tenant, ps[j].facts[k], e.c).None?
    requires forall a | 0 <= a < |ws| && ws[a].memory.tenant == w.memory.tenant ::
               ws[a].memory.canonicalKey != w.memory.canonicalKey && (w.tupleKey != "" ==> ws[a].tupleKey != w.tupleKey)
    ensures DistinctFacts(ws + [w], ps, e)
  {
    hide FindByKey, FindByTuple;
    var ws' := ws + [w];
    forall a, b | 0 <= a < b < |ws'| && ws'[a].origin.Fact? && ws'[b].origin.Fact? && ws'[a].memory.tenant == ws'[b].memory.tenant
      ensures ws'[a].memory.canonicalKey != ws'[b].memory.canonicalKey
      ensures ws'[a].tupleKey != "" ==> ws'[a].tupleKey != ws'[b].tupleKey
    {
      assert ws'[a] == ws[a];
    }
  }

  lemma StageFactKeeps(ws: seq<Write>, ps: seq<Parsed>, j: nat, k: nat, e: Env)
    requires j < |ps| && k < |ps[j].facts| && KeysNotBlank(e.c) && Faithful(ws, ps, e) && DistinctFacts(ws, ps, e)
    ensures var (ws', ref) := StageFact(ws, ps[j], j, k, e);
            && ws <= ws' && Faithful(ws', ps, e) && DistinctFacts(ws', ps, e)
            && (ref.NoRef? <==> !Storable(e.c.rules, ps[j].facts[k]))
            && (!ref.NoRef? ==> RefersTo(ref, ws', ps[j], k, e))
  {
    hide Find, DistinctFacts, FindByKey, FindByTuple, KeysNotBlank, Storable;
    if Storable(e.c.rules, ps[j].facts[k]) {
      if Find(ws, ps[j], k, e).NoRef? {
        NotFoundIsNew(ws, ps, j, k, e);
        var w := FactWrite(ps[j], j, k, e);
        assert (ws + [w])[|ws|] == w;
        AppendFactKeeps(ws, w, ps, j, k, e);
      } else {
        FoundRefers(ws, ps[j], k, e);
      }
    }
  }

  /** Where the first storable of the first k facts is referred to, or that there is none. */
  ghost predicate FirstFound(first: Ref, ws: seq<Write>, p: Parsed, k: nat, e: Env)
    requires k <= |p.facts|
  {
    if first.NoRef? then forall m | 0 <= m < k :: !Storable(e.c.rules, p.facts[m])
    else exists m | 0 <= m < k :: FirstStorable(p, m, e.c.rules) && RefersTo(first, ws, p, m, e)
  }

  /** Each storable one of the first k facts is referred to. */
  ghost predicate FactsReferred(ws: seq<Write>, p: Parsed, k: nat, e: Env)
    requires k <= |p.facts|
  {
    forall m | 0 <= m < k && Storable(e.c.rules, p.facts[m]) :: exists ref :: RefersTo(ref, ws, p, m, e)
  }

  lemma FactsStillReferred(ws: seq<Write>, later: seq<Write>, p: Parsed, k: nat, e: Env)
    requires k <= |p.facts| && ws <= later && FactsReferred(ws, p, k, e)
    ensures FactsReferred(later, p, k, e)
  {
    hide RefersTo, Storable;
    forall m | 0 <= m < k && Storable(e.c.rules, p.facts[m])
      ensures exists ref :: RefersTo(ref, later, p, m, e)
    {
      var ref :| RefersTo(ref, ws, p, m, e);
      RefersStill(ref, ws, later, p, m, e);
    }
  }

  lemma OneMoreReferred(ref: Ref, ws: seq<Write>, p: Parsed, k: nat, e: Env)
    requires k < |p.facts| && FactsReferred(ws, p, k, e)
    requires (ref.NoRef? <==> !Storable(e.c.rules, p.facts[k])) && (!ref.NoRef? ==> RefersTo(ref, ws, p, k, e))
    ensures FactsReferred(ws, p, k + 1, e)
  {
    hide RefersTo, Storable;
  }

  lemma FirstFoundNext(first: Ref, ref: Ref, ws: seq<Write>, ws': seq<Write>, p: Parsed, k: nat, e: Env)
    requires k < |p.facts| && ws <= ws' && FirstFound(first, ws, p, k, e)
    requires (ref.NoRef? <==> !Storable(e.c.rules, p.facts[k])) && (!ref.NoRef? ==> RefersTo(ref, ws', p, k, e))
    ensures FirstFound(if first.NoRef? then ref else first, ws', p, k + 1, e)
  {
    hide RefersTo, Storable;
    if !first.NoRef? {
      var m :| 0 <= m < k && FirstStorable(p, m, e.c.rules) && RefersTo(first, ws, p, m, e);
      RefersStill(first, ws, ws', p, m, e);
    } else if !ref.NoRef? {
      assert FirstStorable(p, k, e.c.rules);
    }
  }

  lemma {:induction false} StageFactsKeeps(ws: seq<Write>, ps: seq<Parsed>, j: nat, k: nat, e: Env)
    requires j < |ps| && k <= |ps[j].facts| && KeysNotBlank(e.c) && Faithful(ws, ps, e) && DistinctFacts(ws, ps, e)
    ensures var (ws', first) := StageFacts(ws, ps[j], j, k, e);
            && ws <= ws' && Faithful(ws', ps, e) && DistinctFacts(ws', ps, e) && FirstFound(first, ws', ps[j], k, e)
            && FactsReferred(ws', ps[j], k, e)
    decreases k
  {
    hide StageFact, Faithful, DistinctFacts, RefersTo, KeysNotBlank, Storable, FirstStorable;
    if k > 0 {
      StageFactsKeeps(ws, ps, j, k - 1, e);
      hide FirstFound, FactsReferred;
      var (ws', first) := StageFacts(ws, ps[j], j, k - 1, e);
      StageFactKeeps(ws', ps, j, k - 1, e);
      var (ws'', ref) := StageFact(ws', ps[j], j, k - 1, e);
      FirstFoundNext(first, ref, ws', ws'', ps[j], k - 1, e);
      FactsStillReferred(ws', ws'', ps[j], k - 1, e);
      OneMoreReferred(ref, ws'', ps[j], k - 1, e);
    }
  }

  lemma RawKeeps(ws: seq<Write>, ps: seq<Parsed>, j: nat, e: Env)
    requires j < |ps| && Faithful(ws, ps, e) && DistinctFacts(ws, ps, e)
    ensures Faithful(ws + [RawWrite(ps[j], j, e)], ps, e) && DistinctFacts(ws + [RawWrite(ps[j], j, e)], ps, e)
  {
    hide Storable, FactWrite, FindByKey, FindByTuple;
    var ws' := ws + [RawWrite(ps[j], j, e)];
    assert forall i | 0 <= i < |ws| :: ws'[i] == ws[i];
    assert forall i | 0 <= i < |ws'| && ws'[i].origin.Fact? :: i < |ws|;
  }

  lemma StageTurnKeeps(ws: seq<Write>, ps: seq<Parsed>, j: nat, e: Env)
    requires j < |ps| && KeysNotBlank(e.c) && Faithful(ws, ps, e) && DistinctFacts(ws, ps, e)
    ensures var (ws', ref) := StageTurn(ws, ps[j], j, e);
            && ws <= ws' && Faithful(ws', ps, e) && DistinctFacts(ws', ps, e) && Answers(ref, ws', ps[j], j, e)
            && (!ps[j].failed ==> FactsReferred(ws', ps[j], |ps[j].facts|, e))
  {
    hide StageFacts, Faithful, DistinctFacts, RefersTo, KeysNotBlank;
    var p := ps[j];
    RawKeeps(ws, ps, j, e);
    if !p.failed && e.storeRaw {
      StageFactsKeeps(ws + [RawWrite(p, j, e)], ps, j, |p.facts|, e);
    } else if !p.failed {
      StageFactsKeeps(ws, ps, j, |p.facts|, e);
      var (ws', first) := StageFacts(ws, p, j, |p.facts|, e);
      if first.NoRef? {
        RawKeeps(ws', ps, j, e);
        FactsStillReferred(ws', ws' + [RawWrite(p, j, e)], p, |p.facts|, e);
      } else {
        var m :| 0 <= m < |p.facts| && FirstStorable(p, m, e.c.rules) && RefersTo(first, ws', p, m, e);
      }
    }
  }

  lemma AnswersStill(ref: Ref, ws: seq<Write>, later: seq<Write>, p: Parsed, j: nat, e: Env)
    requires ws <= later && Answers(ref, ws, p, j, e)
    ensures Answers(ref, later, p, j, e)
  {
    hide RefersTo;
    if !(p.failed || e.storeRaw || forall k | 0 <= k < |p.facts| :: !Storable(e.c.rules, p.facts[k])) {
      var k :| FirstStorable(p, k, e.c.rules) && RefersTo(ref, ws, p, k, e);
      RefersStill(ref, ws, later, p, k, e);
    }
  }

  /**
   Staging answers every turn exactly once and in its own place, every staged write is what its turn or fact calls for,
   and staged facts of a tenant have pairwise different canonical keys and relation tuples, none of them stored before.
   */
  lemma {:induction false} StagingIsSound(ps: seq<Parsed>, n: nat, e: Env)
    requires n <= |ps| && KeysNotBlank(e.c)
    ensures var (ws, refs) := StageAll(ps, n, e);
            && Faithful(ws, ps, e) && DistinctFacts(ws, ps, e) && |refs| == n
            && (forall j | 0 <= j < n :: Answers(refs[j], ws, ps[j], j, e))
            && (forall j | 0 <= j < n && !ps[j].failed :: FactsReferred(ws, ps[j], |ps[j].facts|, e))
    decreases n
  {
    hide StageTurn, Faithful, DistinctFacts, Answers, KeysNotBlank, FactsReferred;
    if n == 0 {
      NothingStaged(ps, e);
    } else {
      StagingIsSound(ps, n - 1, e);
      var (ws, refs) := StageAll(ps, n - 1, e);
      StageTurnKeeps(ws, ps, n - 1, e);
      var (ws', ref) := StageTurn(ws, ps[n - 1], n - 1, e);
      forall j | 0 <= j < n - 1
        ensures Answers(refs[j], ws', ps[j], j, e)
      {
        AnswersStill(refs[j], ws, ws', ps[j], j, e);
      }
      forall j | 0 <= j < n - 1 && !ps[j].failed
        ensures FactsReferred(ws', ps[j], |ps[j].facts|, e)
      {
        FactsStillReferred(ws, ws', ps[j], |ps[j].facts|, e);
      }
    }
  }

  // ----- whether the raw turn is staged

  predicate HasRaw(ws: seq<Write>, j: nat) {
    exists i | 0 <= i < |ws| :: ws[i].origin == Raw(j)
  }

  /** The parse failed, raw turns are stored, or there is nothing else to store. */
  predicate RawWanted(p: Parsed, e: Env) {
    p.failed || e.storeRaw || forall k | 0 <= k < |p.facts| :: !Storable(e.c.rules, p.facts[k])
  }

  lemma OneMoreRaw(ws: seq<Write>, w: Write, j: nat)
    ensures HasRaw(ws + [w], j) <==> HasRaw(ws, j) || w.origin == Raw(j)
  {
    var later := ws + [w];
    assert later[|ws|] == w && forall i | 0 <= i < |ws| :: later[i] == ws[i];
  }

  lemma {:induction false} FactsAddNoRaw(ws: seq<Write>, p: Parsed, j: nat, k: nat, e: Env, other: nat)
    requires k <= |p.facts|
    ensures HasRaw(StageFacts(ws, p, j, k, e).0, other) <==> HasRaw(ws, other)
    ensures StageFacts(ws, p, j, k, e).1.NoRef? <==> forall m | 0 <= m < k :: !Storable(e.c.rules, p.facts[m])
    decreases k
  {
    hide HasRaw, Find, Storable;
    if k > 0 {
      FactsAddNoRaw(ws, p, j, k - 1, e, other);
      OneMoreRaw(StageFacts(ws, p, j, k - 1, e).0, FactWrite(p, j, k - 1, e), other);
    }
  }

  lemma TurnRawIff(ws: seq<Write>, p: Parsed, j: nat, e: Env, other: nat)
    ensures HasRaw(StageTurn(ws, p, j, e).0, other) <==> HasRaw(ws, other) || (other == j && RawWanted(p, e))
  {
    hide HasRaw, StageFacts, Storable;
    var raw := RawWrite(p, j, e);
    OneMoreRaw(ws, raw, other);
    FactsAddNoRaw(ws + [raw], p, j, |p.facts|, e, other);
    FactsAddNoRaw(ws, p, j, |p.facts|, e, other);
    OneMoreRaw(StageFacts(ws, p, j, |p.facts|, e).0, raw, other);
  }

  /** The raw turn is staged if and only if it is wanted. */
  lemma {:induction false} RawStagedIff(ps: seq<Parsed>, n: nat, e: Env, j: nat)
    requires n <= |ps|
    ensures HasRaw(StageAll(ps, n, e).0, j) <==> j < n && RawWanted(ps[j], e)
    decreases n
  {
    hide StageTurn, RawWanted;
    if n > 0 {
      RawStagedIff(ps, n - 1, e, j);
      TurnRawIff(StageAll(ps, n - 1, e).0, ps[n - 1], n - 1, e, j);
    }
  }

  lemma NothingStaged(ps: seq<Parsed>, e: Env)
    ensures Faithful([], ps, e) && DistinctFacts([], ps, e)
  {
  }

  // ----- the code

  method StageMemory(ws: seq<Write>, w: Write, text: string, byText: map<string, seq<real>>) returns (ok: bool, ws': seq<Write>, index: int)
    ensures ok == (text in byText && byText[text] != [])
    ensures ok ==> index == |ws| && ws' == ws + [w.(vector := byText[text], dropped := false, replacedBy := -1)]
  {
    if text !in byText || byText[text] == [] {
      return false, ws, -1;
    }
    ok, ws', index := true, ws + [w.(vector := byText[text], dropped := false, replacedBy := -1)], |ws|;
  }

  method ApplyParsedFactWithPending(ws: seq<Write>, p: Parsed, j: nat, k: nat, e: Env, byText: map<string, seq<real>>)
      returns (ok: bool, ws': seq<Write>, ref: Ref)
    requires k < |p.facts| && forall t | t in byText :: byText[t] == e.embed(t)
    ensures EmbeddingText(e.c.rules, p.facts[k]) in byText && byText[EmbeddingText(e.c.rules, p.facts[k])] != [] ==> ok
    ensures !Storable(e.c.rules, p.facts[k]) ==> ok
    ensures ok ==> (ws', ref) == StageFact(ws, p, j, k, e)
  {
    hide FindByKey, FindByTuple, LastWithKey, LastWithTuple, Blank, TupleOf, EmbeddingText;
    var f := p.facts[k];
    var content := e.c.rules.normalize(f.content);
    if content == "" || !e.c.rules.informative(content) {
      return true, ws, NoRef;
    }
    var key := e.c.rules.factKey(p.content, k, f);
    var at := FindPendingByCanonicalKey(ws, p.tenant, key);
    if at >= 0 {
      return true, ws, Staged(at);
    }
    var tuple := TupleOf(e.c.rules, f);
    if tuple.Some? {
      TupleKeyIsNotBlank(tuple);
      at := FindPendingByRelationTuple(ws, p.tenant, TupleKey(tuple));
      if at >= 0 {
        return true, ws, Staged(at);
      }
    }
    var exact := FindByKey(e.store, p.tenant, key);
    if exact.Some? {
      return true, ws, Existing(exact.value);
    }
    exact := FindByTuple(e.store, e.rows, p.tenant, f, e.c);
    if exact.Some? {
      return true, ws, Existing(exact.value);
    }
    var index;
    ok, ws', index := StageMemory(ws, Write(Memory(p.tenant, content, key, false), [], TupleKey(tuple), false, -1, Fact(j, k)),
                                  EmbeddingText(e.c.rules, f), byText);
    ref := if ok then Staged(index) else NoRef;
  }

  ghost predicate Covers(byText: map<string, seq<real>>, ps: seq<Parsed>, e: Env) {
    && (forall t | t in byText :: byText[t] == e.embed(t) && byText[t] != [])
    && (forall j | 0 <= j < |ps| :: ps[j].content in byText)
    && (forall j, k | 0 <= j < |ps| && !ps[j].failed && 0 <= k < |ps[j].facts| && Storable(e.c.rules, ps[j].facts[k]) ::
          EmbeddingText(e.c.rules, ps[j].facts[k]) in byText)
  }

  method StageRawMemory(ws: seq<Write>, p: Parsed, j: nat, e: Env, byText: map<string, seq<real>>) returns (ws': seq<Write>, index: nat)
    requires p.content in byText && byText[p.content] == e.embed(p.content) != []
    ensures ws' == ws + [RawWrite(p, j, e)] && index == |ws|
  {
    var ok, at;
    ok, ws', at := StageMemory(ws, Write(Memory(p.tenant, p.content, e.c.rules.rawKey(p.content), true), [], "", false, -1, Raw(j)),
                               p.content, byText);
    if !ok {
      assert false;  // no embedding for the raw turn: cannot happen
    }
    index := at;
  }

  method StageTurnFacts(ws0: seq<Write>, ps: seq<Parsed>, j: nat, e: Env, byText: map<string, seq<real>>)
      returns (ws: seq<Write>, first: Ref)
    requires j < |ps| && !ps[j].failed && Covers(byText, ps, e)
    ensures (ws, first) == StageFacts(ws0, ps[j], j, |ps[j].facts|, e)
  {
    hide StageFact;
    ws, first := ws0, NoRef;
    for k := 0 to |ps[j].facts|
      invariant (ws, first) == StageFacts(ws0, ps[j], j, k, e)
    {
      var ok, ref;
      ok, ws, ref := ApplyParsedFactWithPending(ws, ps[j], j, k, e, byText);
      if !ok {
        assert false;  // no embedding for a storable fact: cannot happen
      }
      if !ref.NoRef? && first.NoRef? {
        first := ref;
      }
    }
  }

  method StageBatch(ps: seq<Parsed>, e: Env, byText: map<string, seq<real>>) returns (ws: seq<Write>, refs: seq<Ref>)
    requires Covers(byText, ps, e)
    ensures (ws, refs) == StageAll(ps, |ps|, e)
  {
    hide StageFacts;
    ws, refs := [], [];
    for j := 0 to |ps|
      invariant (ws, refs) == StageAll(ps, j, e)
    {
      var p := ps[j];
      var ref := NoRef;
      if p.failed {
        var at;
        ws, at := StageRawMemory(ws, p, j, e, byText);
        ref := Staged(at);
      } else if e.storeRaw {
        var at, ignored;
        ws, at := StageRawMemory(ws, p, j, e, byText);
        ws, ignored := StageTurnFacts(ws, ps, j, e, byText);
        ref := Staged(at);
      } else {
        ws, ref := StageTurnFacts(ws, ps, j, e, byText);
        if ref.NoRef? {
          var at;
          ws, at := StageRawMemory(ws, p, j, e, byText);
          ref := Staged(at);
        }
      }
      refs := refs + [ref];
    }
  }

  function InsertAll(s: Store, ws: seq<Write>, n: nat): (r: Store)
    requires n <= |ws|
    ensures r.nextId == s.nextId + n
  {
    if n == 0 then s else InsertAll(s, ws, n - 1).Insert(ws[n - 1].memory)
  }

  /** The store after a batch: what was there, and the staged memories under the next ids. */
  ghost predicate Holds(store: Store, s: Store, ws: seq<Write>, n: nat)
    requires n <= |ws|
  {
    && store.Valid() && store.nextId == s.nextId + n
    && (forall id | id in s.memories :: id in store.memories && store.memories[id] == s.memories[id])
    && (forall id | s.nextId <= id < s.nextId + n :: id in store.memories && store.memories[id] == ws[id - s.nextId].memory)
    && (forall id | id in store.memories :: id in s.memories || s.nextId <= id)
  }

  lemma {:induction false} InsertedMemories(s: Store, ws: seq<Write>, n: nat)
    requires n <= |ws| && s.Valid()
    ensures Holds(InsertAll(s, ws, n), s, ws, n)
    decreases n
  {
    if n > 0 {
      InsertedMemories(s, ws, n - 1);
    }
  }

  function IdOf(ref: Ref, s: Store): nat
    requires !ref.NoRef?
  {
    if ref.Staged? then s.nextId + ref.index else ref.id
  }

  /** Where an execution errs: at a lookup while staging a turn, scoring, inserting after so many, or in what follows. */
  datatype Fate = Completes | LookupFails(turn: nat) | ScoringFails | InsertFails(inserted: nat) | VectorsFail | EntityFactsFail

  predicate Succeeds(f: Fate, turns: nat) {
    f.Completes? || (f.LookupFails? && f.turn >= turns)
  }

  /** How many of the staged memories are there when the execution ends. */
  function Kept(f: Fate, turns: nat, staged: nat): (n: nat)
    ensures n <= staged && (Succeeds(f, turns) ==> n == staged)
  {
    match f
    case LookupFails(turn) => if turn >= turns then staged else 0
    case ScoringFails => 0
    case InsertFails(inserted) => if inserted < staged then inserted else staged
    case _ => staged
  }

  /**
   storeBatchWithParser past its fallbacks: the embedder answers every text, with a non-empty vector. The missing
   embedding and the failed resolution are never met, and every input gets its own answer unless a call errs; up to the
   scoring an error leaves the store as it was, from the vectors on it leaves the whole batch stored all the same.
   */
  method StoreBatchWithParser(ps: seq<Parsed>, e: Env, fate: Fate) returns (out: Option<seq<nat>>, store: Store)
    requires e.store.Valid() && KeysNotBlank(e.c) && (forall t :: e.embed(t) != []) && forall p | p in ps :: p.content != ""
    ensures out.Some? <==> fate.Completes? || (fate.LookupFails? && fate.turn >= |ps|)
    ensures fate.ScoringFails? || (fate.LookupFails? && fate.turn < |ps|) ==> store == e.store
    ensures fate.Completes? || fate.VectorsFail? || fate.EntityFactsFail? ==>
              store.nextId == e.store.nextId + |StageAll(ps, |ps|, e).0|
    ensures fate.InsertFails? && fate.inserted <= |StageAll(ps, |ps|, e).0| ==> store.nextId == e.store.nextId + fate.inserted
    ensures var (ws, refs) := StageAll(ps, |ps|, e);
            && store == InsertAll(e.store, ws, Kept(fate, |ps|, |ws|))
            && |ps| == |refs|
            && (out.Some? ==>
                  && |out.value| == |ps|
                  && forall j | 0 <= j < |ps| :: !refs[j].NoRef? && out.value[j] == IdOf(refs[j], e.store))
  {
    hide Faithful, Needs, Covers, KeysNotBlank, StageAll, DistinctFacts, Answers, InsertAll, IdOf;
    var texts := CollectTexts(ps, e.c.rules);
    var byText := EmbedTexts(texts, e.embed);
    NeededTextsAreThere(ps, e, byText);
    StagingIsSound(ps, |ps|, e);
    NoneInserted(e.store, StageAll(ps, |ps|, e).0);
    InsertedMemories(e.store, StageAll(ps, |ps|, e).0, Kept(fate, |ps|, |StageAll(ps, |ps|, e).0|));
    if fate.LookupFails? && fate.turn < |ps| {
      return None, e.store;
    }
    var ws, refs := StageBatch(ps, e, byText);
    NothingDropped(ws, ps, e);
    if fate.ScoringFails? {
      return None, e.store;
    }
    var stored;
    store, stored := StorePending(ws, e.store, Kept(fate, |ps|, |ws|));
    if !Succeeds(fate, |ps|) {
      return None, store;
    }
    var answers := [];
    for j := 0 to |ps|
      invariant |answers| == j && forall m | 0 <= m < j :: !refs[m].NoRef? && answers[m] == IdOf(refs[m], e.store)
    {
      AnswerIsARef(refs[j], ws, ps[j], j, e);
      var id := Resolve(refs[j], ws, stored, e.store);
      answers := answers + [id];
    }
    out := Some(answers);
  }

  lemma NoneInserted(s: Store, ws: seq<Write>)
    ensures InsertAll(s, ws, 0) == s
  {
  }

  lemma NothingDropped(ws: seq<Write>, ps: seq<Parsed>, e: Env)
    requires Faithful(ws, ps, e)
    ensures forall i | 0 <= i < |ws| :: !ws[i].dropped
  {
  }

  /** The memories that are not dropped, up to the first insert that errs. */
  method StorePending(ws: seq<Write>, s: Store, inserts: nat) returns (store: Store, stored: map<int, nat>)
    requires inserts <= |ws| && forall i | 0 <= i < |ws| :: !ws[i].dropped
    ensures store == InsertAll(s, ws, inserts)
    ensures forall x :: x in stored <==> 0 <= x < inserts
    ensures forall x | x in stored :: stored[x] == s.nextId + x
  {
    store, stored := s, map[];
    for i := 0 to inserts
      invariant store == InsertAll(s, ws, i)
      invariant forall x :: x in stored <==> 0 <= x < i
      invariant forall x | x in stored :: stored[x] == s.nextId + x
    {
      if !ws[i].dropped {
        stored := stored[i := store.nextId];
        store := store.Insert(ws[i].memory);
      }
    }
  }

  method Resolve(ref: Ref, ws: seq<Write>, stored: map<int, nat>, s: Store) returns (id: nat)
    requires !ref.NoRef? && (ref.Staged? ==> ref.index < |ws|) && forall i | 0 <= i < |ws| :: !ws[i].dropped
    requires forall x | 0 <= x < |ws| :: x in stored && stored[x] == s.nextId + x
    ensures id == IdOf(ref, s)
  {
    match ref
    case Staged(index) =>
      var resolved := ResolveParserPendingIndex(ws, index, _ => 0);
      if resolved < 0 || resolved !in stored {
        assert false;  // the result of an input cannot be resolved: cannot happen
      }
      id := stored[resolved];
    case Existing(known) =>
      id := known;
  }

  lemma AnswerIsARef(ref: Ref, ws: seq<Write>, p: Parsed, j: nat, e: Env)
    requires Answers(ref, ws, p, j, e)
    ensures !ref.NoRef? && (ref.Staged? ==> ref.index < |ws|) && (ref.Existing? ==> ref.id in e.store.memories)
  {
  }

  lemma NeededTextsAreThere(ps: seq<Parsed>, e: Env, byText: map<string, seq<real>>)
    requires (forall t :: e.embed(t) != []) && forall p | p in ps :: p.content != ""
    requires forall t | t in byText :: byText[t] == e.embed(t)
    requires forall t :: t in byText <==> t != "" && Needs(ps, e.c.rules, t)
    ensures Covers(byText, ps, e)
  {
    hide Needs;
    forall j | 0 <= j < |ps|
      ensures ps[j].content in byText
    {
      NeedsEach(ps, e.c.rules, j, 0);
    }
    forall j, k | 0 <= j < |ps| && !ps[j].failed && 0 <= k < |ps[j].facts| && Storable(e.c.rules, ps[j].facts[k])
      ensures EmbeddingText(e.c.rules, ps[j].facts[k]) in byText
    {
      NeedsEach(ps, e.c.rules, j, k + 1);
    }
  }

  lemma NeedsEach(ps: seq<Parsed>, r: Rules, j: nat, m: nat)
    requires j < |ps| && m < |TextsOf(ps[j], r)|
    ensures Needs(ps, r, TextsOf(ps[j], r)[m])
  {
  }

  // ----- the stored result

  ghost predicate FromTurn(m: Memory, p: Parsed, c: Setup) {
    m == Memory(p.tenant, p.content, c.rules.rawKey(p.content), true)
  }

  /** Both name an entity, a relation and a value, and the same ones, once normalised and joined by bars. */
  ghost predicate SameTuple(f: ParsedFact, g: ParsedFact, r: Rules) {
    && r.entityOf(f.entity) != "" && r.relationOf(f.relation) != "" && r.valueOf(f.value) != ""
    && r.entityOf(g.entity) != "" && r.relationOf(g.relation) != "" && r.valueOf(g.value) != ""
    && r.entityOf(f.entity) + "|" + r.relationOf(f.relation) + "|" + r.valueOf(f.value)
       == r.entityOf(g.entity) + "|" + r.relationOf(g.relation) + "|" + r.valueOf(g.value)
  }

  /** The memory of an id is fact k of turn j. */
  ghost predicate IsFact(store: Store, id: nat, ps: seq<Parsed>, j: nat, k: nat, e: Env) {
    && id in store.memories && j < |ps| && k < |ps[j].facts|
    && store.memories[id] == Memory(ps[j].tenant, e.c.rules.normalize(ps[j].facts[k].content),
                                    e.c.rules.factKey(ps[j].content, k, ps[j].facts[k]), false)
  }

  /**
   A memory that stands for fact k of turn j: it has the fact's key, or it was stored under its tuple, or it is another fact of the
   batch and of the tenant with the same tuple.
   */
  ghost predicate StandsFor(store: Store, id: nat, ps: seq<Parsed>, j: nat, k: nat, e: Env)
    requires j < |ps| && k < |ps[j].facts|
  {
    var f := ps[j].facts[k];
    || (id in store.memories && store.memories[id].tenant == ps[j].tenant
        && store.memories[id].canonicalKey == e.c.rules.factKey(ps[j].content, k, f))
    || FindByTuple(e.store, e.rows, ps[j].tenant, f, e.c) == Some(id)
    || exists j': nat, k': nat ::
         IsFact(store, id, ps, j', k', e) && ps[j'].tenant == ps[j].tenant && SameTuple(ps[j'].facts[k'], f, e.c.rules)
  }

  /** Each input's answer is a memory in the resulting store: its own raw turn, or one standing for its first storable fact. */
  lemma EveryInputIsAnswered(ps: seq<Parsed>, e: Env, j: nat)
    requires e.store.Valid() && KeysNotBlank(e.c) && j < |ps|
    ensures var (ws, refs) := StageAll(ps, |ps|, e);
            var store := InsertAll(e.store, ws, |ws|);
            && |refs| == |ps| && !refs[j].NoRef? && IdOf(refs[j], e.store) in store.memories
            && if ps[j].failed || e.storeRaw || forall k | 0 <= k < |ps[j].facts| :: !Storable(e.c.rules, ps[j].facts[k])
               then FromTurn(store.memories[IdOf(refs[j], e.store)], ps[j], e.c)
               else exists k :: FirstStorable(ps[j], k, e.c.rules) && StandsFor(store, IdOf(refs[j], e.store), ps, j, k, e)
  {
    StagingIsSound(ps, |ps|, e);
    var (ws, refs) := StageAll(ps, |ps|, e);
    InsertedMemories(e.store, ws, |ws|);
    hide StageAll, KeysNotBlank, DistinctFacts, InsertAll, Answers, Faithful, StandsFor;
    AnswerIsARef(refs[j], ws, ps[j], j, e);
    AnsweredInStore(InsertAll(e.store, ws, |ws|), refs[j], ws, ps, j, e);
  }

  lemma AnsweredInStore(store: Store, ref: Ref, ws: seq<Write>, ps: seq<Parsed>, j: nat, e: Env)
    requires j < |ps| && Faithful(ws, ps, e) && Answers(ref, ws, ps[j], j, e) && !ref.NoRef? && Holds(store, e.store, ws, |ws|)
    requires (ref.Staged? ==> ref.index < |ws|) && (ref.Existing? ==> ref.id in e.store.memories)
    ensures var id := IdOf(ref, e.store);
            && id in store.memories
            && if ps[j].failed || e.storeRaw || forall k | 0 <= k < |ps[j].facts| :: !Storable(e.c.rules, ps[j].facts[k])
               then FromTurn(store.memories[id], ps[j], e.c)
               else exists k :: FirstStorable(ps[j], k, e.c.rules) && StandsFor(store, id, ps, j, k, e)
  {
    hide RefersTo, StandsFor, Storable, Holds, Faithful;
    if ps[j].failed || e.storeRaw || forall k | 0 <= k < |ps[j].facts| :: !Storable(e.c.rules, ps[j].facts[k]) {
      RawIsItself(store, ref, ws, ps, j, e);
    } else {
      var k :| FirstStorable(ps[j], k, e.c.rules) && RefersTo(ref, ws, ps[j], k, e);
      ReferredStandsFor(store, ref, ws, ps, j, k, e);
    }
  }

  lemma StagedIs(ws: seq<Write>, ps: seq<Parsed>, e: Env, i: nat)
    requires Faithful(ws, ps, e) && i < |ws|
    ensures ws[i].origin.turn < |ps|
    ensures ws[i].origin.Raw? ==> ws[i] == RawWrite(ps[ws[i].origin.turn], ws[i].origin.turn, e)
    ensures ws[i].origin.Fact? ==>
              && ws[i].origin.fact < |ps[ws[i].origin.turn].facts|
              && Storable(e.c.rules, ps[ws[i].origin.turn].facts[ws[i].origin.fact])
              && ws[i] == FactWrite(ps[ws[i].origin.turn], ws[i].origin.turn, ws[i].origin.fact, e)
  {
    hide Storable, FactWrite, RawWrite;
  }

  lemma StoredAt(store: Store, s: Store, ws: seq<Write>, i: nat)
    requires i < |ws| && Holds(store, s, ws, |ws|)
    ensures s.nextId + i in store.memories && store.memories[s.nextId + i] == ws[i].memory
  {
  }

  lemma RawIsItself(store: Store, ref: Ref, ws: seq<Write>, ps: seq<Parsed>, j: nat, e: Env)
    requires j < |ps| && Faithful(ws, ps, e) && Holds(store, e.store, ws, |ws|)
    requires ref.Staged? && ref.index < |ws| && ws[ref.index].origin == Raw(j)
    ensures IdOf(ref, e.store) in store.memories && FromTurn(store.memories[IdOf(ref, e.store)], ps[j], e.c)
  {
    hide Storable, FactWrite, Faithful, Holds;
    StagedIs(ws, ps, e, ref.index);
    StoredAt(store, e.store, ws, ref.index);
  }

  lemma ReferredStandsFor(store: Store, ref: Ref, ws: seq<Write>, ps: seq<Parsed>, j: nat, k: nat, e: Env)
    requires j < |ps| && k < |ps[j].facts| && RefersTo(ref, ws, ps[j], k, e) && !ref.NoRef?
    requires Faithful(ws, ps, e) && Holds(store, e.store, ws, |ws|)
    ensures IdOf(ref, e.store) in store.memories && StandsFor(store, IdOf(ref, e.store), ps, j, k, e)
  {
    hide Storable, Faithful;
    if ref.Staged? && ws[ref.index].memory.canonicalKey != KeyOf(ps[j], k, e.c) {
      var origin := ws[ref.index].origin;
      StagedIs(ws, ps, e, ref.index);
      assert IsFact(store, IdOf(ref, e.store), ps, origin.turn, origin.fact, e);
      assert SameTuple(ps[origin.turn].facts[origin.fact], ps[j].facts[k], e.c.rules);
    }
  }

  /**
   Every storable fact of every turn that was parsed, whether raw turns are stored or not, ends up with a memory that stands for
   it in the resulting store.
   */
  lemma EveryFactIsThere(ps: seq<Parsed>, e: Env, j: nat, k: nat)
    requires e.store.Valid() && KeysNotBlank(e.c) && j < |ps| && !ps[j].failed
    requires k < |ps[j].facts| && e.c.rules.normalize(ps[j].facts[k].content) != ""
             && e.c.rules.informative(e.c.rules.normalize(ps[j].facts[k].content))
    ensures var ws := StageAll(ps, |ps|, e).0;
            var store := InsertAll(e.store, ws, |ws|);
            exists id :: id in store.memories && StandsFor(store, id, ps, j, k, e)
  {
    hide Faithful, DistinctFacts, KeysNotBlank, Answers, StandsFor, RefersTo, Holds, FactsReferred;
    StagingIsSound(ps, |ps|, e);
    var ws := StageAll(ps, |ps|, e).0;
    InsertedMemories(e.store, ws, |ws|);
    var id := FactIsThere(InsertAll(e.store, ws, |ws|), ws, ps, j, k, e);
    assert StandsFor(InsertAll(e.store, ws, |ws|), id, ps, j, k, e);
  }

  lemma FactIsThere(store: Store, ws: seq<Write>, ps: seq<Parsed>, j: nat, k: nat, e: Env) returns (id: nat)
    requires j < |ps| && k < |ps[j].facts| && Storable(e.c.rules, ps[j].facts[k]) && FactsReferred(ws, ps[j], |ps[j].facts|, e)
    requires Faithful(ws, ps, e) && Holds(store, e.store, ws, |ws|)
    ensures id in store.memories && StandsFor(store, id, ps, j, k, e)
  {
    hide StandsFor, RefersTo, Holds, Storable, Faithful;
    var ref :| RefersTo(ref, ws, ps[j], k, e);
    ReferredIsThere(ref, ws, ps[j], k, e);
    ReferredStandsFor(store, ref, ws, ps, j, k, e);
    id := IdOf(ref, e.store);
  }

  lemma ReferredIsThere(ref: Ref, ws: seq<Write>, p: Parsed, k: nat, e: Env)
    requires k < |p.facts| && RefersTo(ref, ws, p, k, e)
    ensures !ref.NoRef?
  {
  }

  /** No fact of the turn has an informative text. */
  ghost predicate NoneInformative(p: Parsed, r: Rules) {
    forall f | f in p.facts :: r.normalize(f.content) == "" || !r.informative(r.normalize(f.content))
  }

  /** A write staged for raw turn j is stored as that turn. */
  ghost predicate RawIsThere(store: Store, ws: seq<Write>, ps: seq<Parsed>, j: nat, e: Env)
    requires j < |ps|
  {
    exists i :: 0 <= i < |ws| && ws[i].origin == Raw(j) && e.store.nextId + i in store.memories
                && store.memories[e.store.nextId + i] == Memory(ps[j].tenant, ps[j].content, e.c.rules.rawKey(ps[j].content), true)
  }

  /** The raw turn itself is in the resulting store exactly when the parse failed, raw turns are stored, or no fact is storable. */
  lemma RawTurnIsStoredIff(ps: seq<Parsed>, e: Env, j: nat)
    requires e.store.Valid() && KeysNotBlank(e.c) && j < |ps|
    ensures var ws := StageAll(ps, |ps|, e).0;
            var store := InsertAll(e.store, ws, |ws|);
            RawIsThere(store, ws, ps, j, e)
            <==> || ps[j].failed || e.storeRaw
                 || NoneInformative(ps[j], e.c.rules)
  {
    hide Faithful, DistinctFacts, KeysNotBlank, Answers, Holds, FactsReferred, HasRaw, RawWanted, RawIsThere;
    StagingIsSound(ps, |ps|, e);
    RawStagedIff(ps, |ps|, e, j);
    var ws := StageAll(ps, |ps|, e).0;
    InsertedMemories(e.store, ws, |ws|);
    RawIsThereIff(InsertAll(e.store, ws, |ws|), ws, ps, j, e);
  }

  lemma RawIsThereIff(store: Store, ws: seq<Write>, ps: seq<Parsed>, j: nat, e: Env)
    requires j < |ps| && Faithful(ws, ps, e) && Holds(store, e.store, ws, |ws|) && (HasRaw(ws, j) <==> RawWanted(ps[j], e))
    ensures RawIsThere(store, ws, ps, j, e)
            <==> || ps[j].failed || e.storeRaw
                 || NoneInformative(ps[j], e.c.rules)
  {
    hide Faithful, Holds, Storable, FactWrite;
    NothingStorableIff(ps[j], e);
    if HasRaw(ws, j) {
      var i :| 0 <= i < |ws| && ws[i].origin == Raw(j);
      StagedIs(ws, ps, e, i);
      StoredAt(store, e.store, ws, i);
    }
  }

  lemma NothingStorableIff(p: Parsed, e: Env)
    ensures (forall k | 0 <= k < |p.facts| :: !Storable(e.c.rules, p.facts[k]))
            <==> NoneInformative(p, e.c.rules)
  {
    if forall k | 0 <= k < |p.facts| :: !Storable(e.c.rules, p.facts[k]) {
      forall f | f in p.facts
        ensures !Storable(e.c.rules, f)
      {
        var k :| 0 <= k < |p.facts| && p.facts[k] == f;
      }
    }
  }

  /** A fact the batch stores is stored with its normalised text and its own key, under its turn's tenant, with its own vector. */
  lemma StagedFactIs(ps: seq<Parsed>, e: Env, i: nat)
    requires e.store.Valid() && KeysNotBlank(e.c)
    requires var ws := StageAll(ps, |ps|, e).0; i < |ws| && ws[i].origin.Fact?
    ensures var ws := StageAll(ps, |ps|, e).0;
            var store, j, k := InsertAll(e.store, ws, |ws|), ws[i].origin.turn, ws[i].origin.fact;
            && j < |ps| && k < |ps[j].facts| && e.store.nextId + i in store.memories
            && var content, view := e.c.rules.normalize(ps[j].facts[k].content), e.c.rules.specific(ps[j].facts[k].queryView);
               && store.memories[e.store.nextId + i]
                  == Memory(ps[j].tenant, content, e.c.rules.factKey(ps[j].content, k, ps[j].facts[k]), false)
               && content != "" && e.c.rules.informative(content)
               && ws[i].vector == e.embed(if view == "" then content else content + "\n" + view)
  {
    hide Faithful, DistinctFacts, KeysNotBlank, Answers, Holds, FactsReferred, StageAll, InsertAll;
    StagingIsSound(ps, |ps|, e);
    var ws := StageAll(ps, |ps|, e).0;
    InsertedMemories(e.store, ws, |ws|);
    StagedIs(ws, ps, e, i);
    StoredAt(InsertAll(e.store, ws, |ws|), e.store, ws, i);
  }

  /** After the batch no fact memory it stored shares its canonical key with any other fact memory of its tenant. */
  lemma StoredFactKeysAreUnique(ps: seq<Parsed>, e: Env, i: nat, id: nat)
    requires e.store.Valid() && KeysNotBlank(e.c)
    requires var ws := StageAll(ps, |ps|, e).0;
             && i < |ws| && ws[i].origin.Fact?
             && HasKey(InsertAll(e.store, ws, |ws|), id, ws[i].memory.tenant, ws[i].memory.canonicalKey)
             && (id >= e.store.nextId && id - e.store.nextId < |ws| ==> ws[id - e.store.nextId].origin.Fact?)
    ensures id == e.store.nextId + i
  {
    StagingIsSound(ps, |ps|, e);
    var ws := StageAll(ps, |ps|, e).0;
    InsertedMemories(e.store, ws, |ws|);
    hide StageAll, InsertAll, Faithful, DistinctFacts, KeysNotBlank;
    assert Faithful(ws, ps, e) && DistinctFacts(ws, ps, e);
    KeysUniqueInStore(InsertAll(e.store, ws, |ws|), ws, ps, e, i, id);
  }

  lemma KeysUniqueInStore(store: Store, ws: seq<Write>, ps: seq<Parsed>, e: Env, i: nat, id: nat)
    requires e.store.Valid() && KeysNotBlank(e.c) && Faithful(ws, ps, e) && DistinctFacts(ws, ps, e)
    requires Holds(store, e.store, ws, |ws|)
    requires i < |ws| && ws[i].origin.Fact? && HasKey(store, id, ws[i].memory.tenant, ws[i].memory.canonicalKey)
    requires id >= e.store.nextId && id - e.store.nextId < |ws| ==> ws[id - e.store.nextId].origin.Fact?
    ensures id == e.store.nextId + i
  {
    var key := ws[i].memory.canonicalKey;
    assert key == KeyOf(ps[ws[i].origin.turn], ws[i].origin.fact, e.c);
    assert !HasKey(e.store, id, ws[i].memory.tenant, key);
    assert ws[id - e.store.nextId].memory == store.memories[id];
  }
}
