/** The telemetry observations of one service, and what they credit to each tenant. */
module TenantWrites {
  import opened Text
  import opened Sums

  /** One entry of a batch's tenant map; a batch lists them in whatever order the map is ranged over. */
  datatype Write = Write(tenant: string, count: int)
  datatype Observation =
    | Stored(tenant: string, status: int)
    | BatchStored(writes: seq<Write>, status: int)
    | Searched(tenant: string, status: int)

  predicate Success(status: int) {
    200 <= status < 400
  }

  /** What counts of a write: nothing without a tenant or without items. */
  function Items(w: Write): nat {
    if w.count <= 0 || TrimSpace(w.tenant) == "" then 0 else w.count
  }

  function Credit(w: Write, tenant: string): nat {
    if TrimSpace(w.tenant) == tenant then Items(w) else 0
  }

  function Credits(ws: seq<Write>, tenant: string): nat
    decreases |ws|
  {
    if ws == [] then 0 else Credits(ws[..|ws| - 1], tenant) + Credit(ws[|ws| - 1], tenant)
  }

  function AllItems(ws: seq<Write>): nat
    decreases |ws|
  {
    if ws == [] then 0 else AllItems(ws[..|ws| - 1]) + Items(ws[|ws| - 1])
  }

  /** The tenants of the entries that count, in order. */
  function Counting(ws: seq<Write>): seq<string>
    decreases |ws|
  {
    if ws == [] then []
    else
      var w := ws[|ws| - 1];
      Counting(ws[..|ws| - 1]) + if Items(w) == 0 then [] else [TrimSpace(w.tenant)]
  }

  function OnlyTenant(ws: seq<Write>): string {
    if |Counting(ws)| == 1 then Counting(ws)[0] else ""
  }

  /** The writes an observation reports. */
  function WritesIn(o: Observation): seq<Write> {
    match o
    case Stored(tenant, status) => if Success(status) then [Write(tenant, 1)] else []
    case BatchStored(writes, status) => if Success(status) then writes else []
    case Searched(_, _) => []
  }

  function WritesOf(log: seq<Observation>, tenant: string): nat
    decreases |log|
  {
    if log == [] then 0 else WritesOf(log[..|log| - 1], tenant) + Credits(WritesIn(log[|log| - 1]), tenant)
  }

  function SearchesOf(log: seq<Observation>, tenant: string): nat
    decreases |log|
  {
    if log == [] then 0
    else
      var o := log[|log| - 1];
      SearchesOf(log[..|log| - 1], tenant)
      + if o.Searched? && Success(o.status) && tenant != "" && TrimSpace(o.tenant) == tenant then 1 else 0
  }

  /** Successful single stores with a tenant, and the batch items with one. */
  function AllWrites(log: seq<Observation>): nat
    decreases |log|
  {
    if log == [] then 0 else AllWrites(log[..|log| - 1]) + AllItems(WritesIn(log[|log| - 1]))
  }

  /** An entry more credits its items to its own trimmed tenant, and to the total, if it has a tenant and any items. */
  lemma OneMoreEntry(ws: seq<Write>, w: Write, tenant: string)
    requires tenant != ""
    ensures Credits([], tenant) == 0 == AllItems([])
    ensures Credits(ws + [w], tenant) == Credits(ws, tenant) + if w.count > 0 && TrimSpace(w.tenant) == tenant then w.count else 0
    ensures AllItems(ws + [w]) == AllItems(ws) + if w.count > 0 && TrimSpace(w.tenant) != "" then w.count else 0
  {
    hide TrimSpace;
    assert (ws + [w])[..|ws|] == ws;
  }

  ghost predicate Credited(w: Write) {
    w.count > 0 && TrimSpace(w.tenant) != ""
  }

  /** The tenant of the one entry that counts, when just one does. */
  ghost predicate IsOnlyTenant(ws: seq<Write>, tenant: string) {
    if exists i: nat :: IsOnly(ws, i) then exists i: nat :: IsOnly(ws, i) && tenant == TrimSpace(ws[i].tenant) else tenant == ""
  }

  ghost predicate IsOnly(ws: seq<Write>, i: nat) {
    i < |ws| && Credited(ws[i]) && forall j | 0 <= j < |ws| && j != i :: !Credited(ws[j])
  }

  lemma {:induction false} NoneCounts(ws: seq<Write>)
    ensures Counting(ws) == [] <==> forall j | 0 <= j < |ws| :: !Credited(ws[j])
    decreases |ws|
  {
    hide TrimSpace;
    if ws != [] {
      NoneCounts(ws[..|ws| - 1]);
      assert forall j | 0 <= j < |ws| - 1 :: ws[..|ws| - 1][j] == ws[j];
    }
  }

  lemma {:induction false} OneCounts(ws: seq<Write>)
    ensures |Counting(ws)| == 1 <==> exists i: nat :: IsOnly(ws, i)
    ensures forall i: nat | IsOnly(ws, i) :: Counting(ws) == [TrimSpace(ws[i].tenant)]
    decreases |ws|
  {
    hide TrimSpace;
    if ws != [] {
      var n := |ws| - 1;
      var less := ws[..n];
      OneCounts(less);
      NoneCounts(less);
      assert forall j | 0 <= j < n :: less[j] == ws[j];
      if i: nat :| IsOnly(less, i) && !Credited(ws[n]) {
        assert IsOnly(ws, i);
      }
      if Counting(less) == [] && Credited(ws[n]) {
        assert IsOnly(ws, n);
      }
      forall i: nat | IsOnly(ws, i)
        ensures Counting(ws) == [TrimSpace(ws[i].tenant)]
      {
        if i < n {
          assert IsOnly(less, i);
        }
      }
    }
  }

  lemma OnlyTenantIsIt(ws: seq<Write>)
    ensures IsOnlyTenant(ws, OnlyTenant(ws))
  {
    OneCounts(ws);
  }

  // ----- conservation

  /** Every tenant that was written to is listed. */
  predicate Covers(ts: seq<string>, log: seq<Observation>) {
    forall o | o in log :: forall w | w in WritesIn(o) :: Items(w) == 0 || TrimSpace(w.tenant) in ts
  }

  /** A write is credited to exactly one of the listed tenants. */
  lemma {:induction false} OneWrite(ts: seq<string>, w: Write)
    requires Distinct(ts)
    ensures SumOver(ts, t => Credit(w, t)) == if TrimSpace(w.tenant) in ts then Items(w) else 0
  {
    hide TrimSpace;
    if ts != [] {
      OneWrite(ts[1..], w);
    }
  }

  lemma {:induction false} WritesSum(ts: seq<string>, ws: seq<Write>)
    requires Distinct(ts) && forall w | w in ws :: Items(w) == 0 || TrimSpace(w.tenant) in ts
    ensures SumOver(ts, t => Credits(ws, t)) == AllItems(ws)
    decreases |ws|
  {
    hide TrimSpace, Distinct, SumOver, Items, Credit;
    if ws == [] {
      NothingSums(ts, t => Credits(ws, t));
    } else {
      var n := |ws| - 1;
      assert ws[n] in ws;
      WritesSum(ts, ws[..n]);
      OneWrite(ts, ws[n]);
      SumsAdd(ts, t => Credits(ws, t), t => Credits(ws[..n], t), t => Credit(ws[n], t));
    }
  }

  /** Per-tenant writes sum to the successful single stores and batch items that name a tenant. */
  lemma {:induction false} TenantWritesSumUp(ts: seq<string>, log: seq<Observation>)
    requires Distinct(ts) && Covers(ts, log)
    ensures SumOver(ts, t => WritesOf(log, t)) == AllWrites(log)
    decreases |log|
  {
    hide TrimSpace, Distinct, SumOver, Items, WritesIn, Credits, AllItems;
    if log == [] {
      NothingSums(ts, t => WritesOf(log, t));
    } else {
      var n := |log| - 1;
      assert log[n] in log;
      TenantWritesSumUp(ts, log[..n]);
      WritesSum(ts, WritesIn(log[n]));
      SumsAdd(ts, t => WritesOf(log, t), t => WritesOf(log[..n], t), t => Credits(WritesIn(log[n]), t));
    }
  }
}
