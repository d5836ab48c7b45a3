/** What the parser paths share: parsed facts, memories, the rules that read facts, and the two lookups. */
module ParsedFacts {
  import opened Optional
  import opened Text
  import E = EntityFacts

  datatype ParsedFact = ParsedFact(content: string, queryView: string, entity: string, relation: string, value: string)

  /** A raw turn to extract from: its tenant, its content and the facts the parser read in it. */
  datatype Turn = Turn(tenant: string, source: string, facts: seq<ParsedFact>)

  datatype Memory = Memory(tenant: string, content: string, canonicalKey: string, raw: bool)

  /** Ids are handed out in order: every row's id is below nextId, and no id is used twice. */
  datatype Store = Store(memories: map<nat, Memory>, nextId: nat) {
    ghost predicate Valid() {
      forall id | id in memories :: id < nextId
    }

    function Insert(m: Memory): Store {
      Store(memories[nextId := m], nextId + 1)
    }
  }

  /** The keyword and regular-expression rules, and the hash, left open. */
  datatype Rules = Rules(
    normalize: string -> string,                       // normalizeFactContent
    informative: string -> bool,                       // isInformativeFact on a short text, or long enough
    specific: string -> string,                        // filterSpecificQueryViewText after normalisation
    factKey: (string, nat, ParsedFact) -> string,      // buildParsedFactIdentity: source content, index, fact
    rawKey: string -> string,                          // buildRawTurnIdentity
    entityOf: string -> string,                        // normalizeEntityFactEntity
    relationOf: string -> string,                      // normalizeEntityFactRelation
    valueOf: string -> string,                         // normalizeEntityFactValue
    recordValue: (string, string, string) -> string)   // normalizeEntityFactValueForRelation: relation, value, content

  /**
   hasEntities: there is an entity repository. activeOnly: singleton invalidation hides closed rows from lookups.
   updatedAt: when the memory of an id was last updated.
   */
  datatype Setup = Setup(rules: Rules, hasEntities: bool, activeOnly: bool, updatedAt: nat -> int)

  /** Canonical keys are hashes with a prefix. */
  ghost predicate KeysNotBlank(c: Setup) {
    forall source, i, f :: !Blank(c.rules.factKey(source, i, f))
  }

  predicate Storable(r: Rules, f: ParsedFact) {
    var content := r.normalize(f.content);
    content != "" && r.informative(content)
  }

  datatype Tuple = Tuple(entity: string, relation: string, value: string)

  function TupleOf(r: Rules, f: ParsedFact): Option<Tuple> {
    var t := Tuple(r.entityOf(f.entity), r.relationOf(f.relation), r.valueOf(f.value));
    if t.entity == "" || t.relation == "" || t.value == "" then None else Some(t)
  }

  // ----- FindByCanonicalKey

  predicate HasKey(s: Store, id: nat, tenant: string, key: string) {
    id in s.memories && s.memories[id].tenant == tenant && s.memories[id].canonicalKey == key
  }

  function FirstWithKey(s: Store, tenant: string, key: string, from: nat): (r: Option<nat>)
    requires from <= s.nextId
    ensures r.Some? ==> from <= r.value < s.nextId && HasKey(s, r.value, tenant, key)
    ensures r.None? ==> forall id | from <= id < s.nextId :: !HasKey(s, id, tenant, key)
    decreases s.nextId - from
  {
    if from == s.nextId then None
    else if HasKey(s, from, tenant, key) then Some(from)
    else FirstWithKey(s, tenant, key, from + 1)
  }

  /** A blank key finds nothing. */
  function FindByKey(s: Store, tenant: string, key: string): (r: Option<nat>)
    ensures r.Some? ==> HasKey(s, r.value, tenant, key) && !Blank(key)
    ensures r.None? && s.Valid() && !Blank(key) ==> forall id :: !HasKey(s, id, tenant, key)
  {
    if Blank(key) then None else FirstWithKey(s, tenant, key, 0)
  }

  // ----- findMemoryByRelationTuple

  const LIST_LIMIT := 16

  /** ListByEntityRelation: the newest rows of a slot. */
  function List(rows: seq<E.Row>, tenant: string, t: Tuple, limit: nat): (r: seq<E.Row>)
    ensures |r| <= limit
    decreases |rows|
  {
    if rows == [] || limit == 0 then []
    else
      var f := rows[0].fact;
      if f.tenant == tenant && f.entity == t.entity && f.relation == t.relation
      then [rows[0]] + List(rows[1..], tenant, t, limit - 1)
      else List(rows[1..], tenant, t, limit)
  }

  predicate Hits(s: Store, row: E.Row, tenant: string, t: Tuple, c: Setup) {
    && (c.activeOnly ==> row.active)
    && c.rules.valueOf(row.fact.value) == t.value
    && row.fact.memory in s.memories && s.memories[row.fact.memory].tenant == tenant
  }

  /** GetByIDs on the hits, sorted by their last update: a memory no other hit was updated after. */
  function LatestHit(s: Store, rows: seq<E.Row>, tenant: string, t: Tuple, c: Setup): (r: Option<nat>)
    ensures r.Some? <==> exists row | row in rows :: Hits(s, row, tenant, t, c)
    ensures r.Some? ==> exists row | row in rows :: Hits(s, row, tenant, t, c) && row.fact.memory == r.value
    ensures forall row | row in rows && Hits(s, row, tenant, t, c) :: c.updatedAt(row.fact.memory) <= c.updatedAt(r.value)
  {
    if rows == [] then None
    else
      var rest := LatestHit(s, rows[1..], tenant, t, c);
      var id := rows[0].fact.memory;
      if Hits(s, rows[0], tenant, t, c) && (rest.Some? ==> c.updatedAt(rest.value) <= c.updatedAt(id)) then Some(id) else rest
  }

  function FindByTuple(s: Store, rows: seq<E.Row>, tenant: string, f: ParsedFact, c: Setup): (r: Option<nat>)
    ensures r.Some? ==> r.value in s.memories
  {
    var t := TupleOf(c.rules, f);
    if !c.hasEntities || t.None? then None
    else LatestHit(s, List(rows, tenant, t.value, LIST_LIMIT), tenant, t.value, c)
  }

  /** How many rows there are of a slot. */
  function SlotRows(rows: seq<E.Row>, tenant: string, t: Tuple): nat {
    if rows == [] then 0
    else
      var f := rows[0].fact;
      SlotRows(rows[1..], tenant, t) + if f.tenant == tenant && f.entity == t.entity && f.relation == t.relation then 1 else 0
  }

  /** The listing is the newest rows of the slot in order, as many as fit: a row of the slot stands behind the newer ones of it. */
  lemma {:induction false} ListIsTheNewest(rows: seq<E.Row>, tenant: string, t: Tuple, limit: nat, k: nat)
    requires k < |rows| && rows[k].fact.tenant == tenant && rows[k].fact.entity == t.entity && rows[k].fact.relation == t.relation
    ensures var listed, newer, all := List(rows, tenant, t, limit), SlotRows(rows[..k], tenant, t), SlotRows(rows, tenant, t);
            |listed| == (if all < limit then all else limit) && newer < all && (newer < limit ==> listed[newer] == rows[k])
    decreases |rows|
  {
    ListLength(rows, tenant, t, limit);
    var f := rows[0].fact;
    if k > 0 && limit > 0 {
      assert rows[..k][1..] == rows[1..][..k - 1];
      var mine := f.tenant == tenant && f.entity == t.entity && f.relation == t.relation;
      ListIsTheNewest(rows[1..], tenant, t, if mine then limit - 1 else limit, k - 1);
    } else if k > 0 {
      SlotRowsBefore(rows, tenant, t, k);
    }
  }

  lemma {:induction false} ListLength(rows: seq<E.Row>, tenant: string, t: Tuple, limit: nat)
    ensures var all := SlotRows(rows, tenant, t); |List(rows, tenant, t, limit)| == if all < limit then all else limit
    decreases |rows|
  {
    if rows != [] && limit > 0 {
      ListLength(rows[1..], tenant, t, limit - 1);
      ListLength(rows[1..], tenant, t, limit);
    }
  }

  lemma {:induction false} SlotRowsBefore(rows: seq<E.Row>, tenant: string, t: Tuple, k: nat)
    requires k < |rows| && rows[k].fact.tenant == tenant && rows[k].fact.entity == t.entity && rows[k].fact.relation == t.relation
    ensures SlotRows(rows[..k], tenant, t) < SlotRows(rows, tenant, t)
    decreases |rows|
  {
    if k > 0 {
      assert rows[..k][1..] == rows[1..][..k - 1];
      SlotRowsBefore(rows[1..], tenant, t, k - 1);
    }
  }

  /**
   The tuple lookup in full: it needs an entity repository and a whole tuple, sees sixteen rows of the slot, takes no closed row
   when told so, and of the tenant's memories it finds with that value gives one no other was updated after.
   */
  lemma FoundByTuple(s: Store, rows: seq<E.Row>, tenant: string, f: ParsedFact, c: Setup)
    ensures var t := Tuple(c.rules.entityOf(f.entity), c.rules.relationOf(f.relation), c.rules.valueOf(f.value));
            var found := set row | row in List(rows, tenant, t, 16) && (c.activeOnly ==> row.active)
                                   && c.rules.valueOf(row.fact.value) == t.value && row.fact.memory in s.memories
                                   && s.memories[row.fact.memory].tenant == tenant :: row.fact.memory;
            match FindByTuple(s, rows, tenant, f, c)
            case None => !c.hasEntities || t.entity == "" || t.relation == "" || t.value == "" || found == {}
            case Some(id) =>
              && c.hasEntities && t.entity != "" && t.relation != "" && t.value != "" && id in found
              && forall other | other in found :: c.updatedAt(other) <= c.updatedAt(id)
  {
    hide List;
    var t := Tuple(c.rules.entityOf(f.entity), c.rules.relationOf(f.relation), c.rules.valueOf(f.value));
    var listed := List(rows, tenant, t, 16);
    forall row | row in listed
      ensures Hits(s, row, tenant, t, c)
              <==> (c.activeOnly ==> row.active) && c.rules.valueOf(row.fact.value) == t.value && row.fact.memory in s.memories
                   && s.memories[row.fact.memory].tenant == tenant
    {
    }
  }
}
