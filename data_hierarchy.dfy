/**
 * The document tree: a DataHierarchy maps attribute hashes to DataValues, and
 * a DataValue is nothing (INVALID), an interned string (BASIC) or a nested
 * DataHierarchy (STRUCT). Nodes are heap objects, so a tree is shared by
 * reference exactly as the source's pointers share it.
 */
module Hierarchy {
  import opened QtText
  import opened Ordering
  import opened Deduplication

  /** DataValue. The default value is Invalid; Basic holds the hash of an interned string. */
  datatype DataValue = Invalid | Basic(id: Uint32) | Struct(node: DataHierarchy?)

  /** BasicValue: the string hash of a BASIC value, 0 for any other value. */
  function BasicValue(v: DataValue): (r: Uint32)
    ensures v.Basic? ==> r == v.id
    ensures !v.Basic? ==> r == 0
  {
    if v.Basic? then v.id else 0
  }

  /** BasicString: the interned string of a BASIC value, the empty string for any other value. */
  function BasicString(v: DataValue, dedup: StringDeduplicator): (r: string)
    reads dedup
    ensures v.Basic? ==> r == dedup.Retrieve(v.id)
    ensures !v.Basic? ==> r == []
  {
    if v.Basic? then dedup.Retrieve(v.id) else []
  }

  /** StructValue: the node of a STRUCT value, null for any other value. */
  function StructValue(v: DataValue): (r: DataHierarchy?)
    ensures v.Struct? ==> r == v.node
    ensures !v.Struct? ==> r == null
  {
    if v.Struct? then v.node else null
  }

  class DataHierarchy {
    /** m_Children, keyed by attribute hash. */
    var children: map<Uint32, DataValue>

    constructor()
      ensures children == map[]
    {
      children := map[];
    }

    /** Children: the number of attributes. */
    function Children(): (n: nat)
      reads this
      ensures n == |children.Keys|
    {
      |children|
    }

    /** Contains(uint): whether the attribute hash is present. */
    function Contains(id: Uint32): (r: bool)
      reads this
      ensures r <==> id in children
    {
      id in children
    }

    /** Contains(QString): the same question, asked with the attribute's name. */
    function ContainsName(attrib: string, dedup: StringDeduplicator): (r: bool)
      reads this
      ensures r <==> dedup.hash(attrib) in children
    {
      Contains(dedup.hash(attrib))
    }

    /** Value(uint): the value under the hash, INVALID when the hash is absent. */
    function Value(id: Uint32): (v: DataValue)
      reads this
      ensures id in children ==> v == children[id]
      ensures id !in children ==> v == Invalid
    {
      if id in children then children[id] else Invalid
    }

    /** Value(QString): the value under the attribute's name. */
    function ValueOf(attrib: string, dedup: StringDeduplicator): (v: DataValue)
      reads this
      ensures dedup.hash(attrib) in children ==> v == children[dedup.hash(attrib)]
      ensures dedup.hash(attrib) !in children ==> v == Invalid
    {
      Value(dedup.hash(attrib))
    }

    /**
     * AllAttributes: the attribute hashes in ascending order, each once, and
     * their number. The source fills a cleared out-list by walking the map.
     */
    method AllAttributes() returns (ids: seq<Uint32>, count: int)
      ensures ids == SortedHashes(children.Keys)
      ensures forall k :: k in ids <==> k in children
      ensures count == |children.Keys|
    {
      ids := [];
      count := 0;
      var remaining := children.Keys;
      while remaining != {}
        invariant remaining <= children.Keys
        invariant ids + SortedHashes(remaining) == SortedHashes(children.Keys)
        invariant count == |ids|
        decreases |remaining|
      {
        HashMinExists(remaining);
        var k :| k in remaining && forall y :: y in remaining ==> k <= y;
        SortedHashesStep(remaining, k);
        assert ids + SortedHashes(remaining) == (ids + [k]) + SortedHashes(remaining - {k});
        ids := ids + [k];
        remaining := remaining - {k};
        count := count + 1;
      }
      SortedHashesSpec(children.Keys);
    }

    /**
     * Set(uint, DataValue): stores the value under the hash, replacing any
     * previous one, and reports whether the hash is new.
     */
    method Set(id: Uint32, val: DataValue) returns (isNew: bool)
      modifies this
      ensures isNew <==> id !in old(children)
      ensures children == old(children)[id := val]
      ensures Value(id) == val
      ensures Children() == if isNew then old(Children()) + 1 else old(Children())
    {
      isNew := false;
      if id !in children {
        isNew := true;
      }
      children := children[id := val];
    }

    /** Set(uint, QString): interns the value and stores it as BASIC under the hash. */
    method SetBasicId(id: Uint32, basicValue: string, dedup: StringDeduplicator) returns (isNew: bool)
      modifies this, dedup
      ensures isNew <==> id !in old(children)
      ensures children == old(children)[id := Basic(dedup.hash(basicValue))]
      ensures dedup.strings == old(dedup.strings)[dedup.hash(basicValue) := basicValue]
      ensures BasicString(Value(id), dedup) == basicValue
    {
      var valueId := dedup.Store(basicValue);
      isNew := Set(id, Basic(valueId));
    }

    /**
     * Set(QString, QString): interns the name and the value, and stores the
     * value under the name's hash, where Contains and Value by name find it.
     */
    method SetBasic(attrib: string, basicValue: string, dedup: StringDeduplicator) returns (isNew: bool)
      modifies this, dedup
      ensures isNew <==> dedup.hash(attrib) !in old(children)
      ensures children == old(children)[dedup.hash(attrib) := Basic(dedup.hash(basicValue))]
      ensures dedup.strings == old(dedup.strings)[dedup.hash(attrib) := attrib][dedup.hash(basicValue) := basicValue]
      ensures ContainsName(attrib, dedup) && BasicString(ValueOf(attrib, dedup), dedup) == basicValue
    {
      var attribHash := dedup.Store(attrib);
      isNew := SetBasicId(attribHash, basicValue, dedup);
    }

    /** Set(uint, DataHierarchy*): stores a STRUCT value under the hash (a null pointer included). */
    method SetStructId(id: Uint32, structValue: DataHierarchy?) returns (isNew: bool)
      modifies this
      ensures isNew <==> id !in old(children)
      ensures children == old(children)[id := Struct(structValue)]
    {
      isNew := Set(id, Struct(structValue));
    }

    /**
     * Set(QString, DataHierarchy*): a null struct is refused and changes
     * nothing; otherwise the name is interned and the struct stored under it.
     */
    method SetStruct(attrib: string, structValue: DataHierarchy?, dedup: StringDeduplicator) returns (isNew: bool)
      modifies this, dedup
      ensures structValue == null ==> !isNew && children == old(children) && dedup.strings == old(dedup.strings)
      ensures structValue != null ==>
        && (isNew <==> dedup.hash(attrib) !in old(children))
        && children == old(children)[dedup.hash(attrib) := Struct(structValue)]
        && dedup.strings == old(dedup.strings)[dedup.hash(attrib) := attrib]
        && StructValue(ValueOf(attrib, dedup)) == structValue
    {
      isNew := false;
      if structValue != null {
        var attribHash := dedup.Store(attrib);
        isNew := SetStructId(attribHash, structValue);
      }
    }
  }

  // ---------------------------------------------------------------------------
  // Tree shape.
  // ---------------------------------------------------------------------------

  /**
   * h is the root of a finite tree drawn from S: following STRUCT values
   * never returns to a node already on the path. The writer's recursion
   * relies on this to end.
   */
  ghost predicate Acyclic(h: DataHierarchy, S: set<DataHierarchy>)
    reads S
    decreases S
  {
    h in S &&
    forall k :: k in h.children && h.children[k].Struct? && h.children[k].node != null ==>
      Acyclic(h.children[k].node, S - {h})
  }

  /** Every STRUCT value among the children refers to a node of nodes ranked above r. */
  ghost predicate Climbs(children: map<Uint32, DataValue>, r: nat, nodes: set<DataHierarchy>, rank: map<DataHierarchy, nat>)
  {
    forall k :: k in children && children[k].Struct? ==>
      var c := children[k].node;
      c != null && c in nodes && c in rank && rank[c] > r
  }

  /** Every STRUCT value of n refers to a node of nodes with a higher rank. */
  ghost predicate EdgesRanked(n: DataHierarchy, nodes: set<DataHierarchy>, rank: map<DataHierarchy, nat>)
    requires n in rank
    reads n
  {
    Climbs(n.children, rank[n], nodes, rank)
  }

  /** Edges keep climbing when nodes are added and the ranks of the old ones kept. */
  lemma {:induction false} ClimbsGrow(children: map<Uint32, DataValue>, r: nat, nodes: set<DataHierarchy>, rank: map<DataHierarchy, nat>,
                   nodes': set<DataHierarchy>, rank': map<DataHierarchy, nat>)
    requires Climbs(children, r, nodes, rank)
    requires nodes <= nodes' && forall c :: c in nodes && c in rank ==> c in rank' && rank'[c] == rank[c]
    ensures Climbs(children, r, nodes', rank')
  {
  }

  /** Setting a value keeps the edges climbing when a STRUCT value refers to a node ranked above r. */
  lemma {:induction false} ClimbsSet(children: map<Uint32, DataValue>, r: nat, k: Uint32, v: DataValue,
                  nodes: set<DataHierarchy>, rank: map<DataHierarchy, nat>)
    requires Climbs(children, r, nodes, rank)
    requires v.Struct? ==> v.node != null && v.node in nodes && v.node in rank && rank[v.node] > r
    ensures Climbs(children[k := v], r, nodes, rank)
  {
  }

  /** A ranking of a set of nodes under which every STRUCT edge climbs. */
  ghost predicate Ranked(nodes: set<DataHierarchy>, rank: map<DataHierarchy, nat>)
    reads nodes
  {
    && (forall n :: n in nodes ==> n in rank)
    && (forall n {:trigger EdgesRanked(n, nodes, rank)} :: n in nodes ==> n in rank && EdgesRanked(n, nodes, rank))
  }

  /** Edges that always climb a ranking cannot close a cycle. */
  lemma {:induction false} RankedAcyclic(h: DataHierarchy, S: set<DataHierarchy>, nodes: set<DataHierarchy>, rank: map<DataHierarchy, nat>)
    requires Ranked(nodes, rank) && h in nodes
    requires forall n :: n in nodes && rank[n] >= rank[h] ==> n in S
    ensures Acyclic(h, S)
    decreases S
  {
    forall k | k in h.children && h.children[k].Struct? && h.children[k].node != null
      ensures Acyclic(h.children[k].node, S - {h})
    {
      var c := h.children[k].node;
      assert EdgesRanked(h, nodes, rank);
      RankedAcyclic(c, S - {h}, nodes, rank);
    }
  }
}
