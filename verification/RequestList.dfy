/** The request list of an HTTP/2 connection: an intrusive singly linked chain of requests
    in order of priority, with an index by stream. */
module RequestList {
  import opened Basics

  // ----- the list on values -----

  /** The chain from `first` on, and the targets of `header_map`. */
  datatype Requests<T> = Requests(chain: seq<T>, targets: map<nat, T>)

  function InsertBehind<T(==)>(chain: seq<T>, x: T, node: T): seq<T> {
    if chain == [] then []
    else if chain[0] == x then [x, node] + chain[1..]
    else [chain[0]] + InsertBehind(chain[1..], x, node)
  }

  /** The three cases of the dependency. */
  function Placed<T(==)>(s: Requests<T>, node: T, dependency: nat, dummy: T): Requests<T> {
    if dependency == 0 then Requests(s.chain + [node], s.targets)
    else if dependency !in s.targets then Requests(s.chain + [dummy, node], s.targets[dependency := dummy])
    else Requests(InsertBehind(s.chain, s.targets[dependency], node), s.targets)
  }

  /** `insert`; an entry of the index that is there stays. */
  function Inserted<T(==)>(s: Requests<T>, node: T, id: nat, dependency: nat, dummy: T): Requests<T> {
    var t := Placed(s, node, dependency, dummy);
    if id in t.targets then t else t.(targets := t.targets[id := node])
  }

  predicate MakesDummy<T>(s: Requests<T>, dependency: nat) {
    dependency != 0 && dependency !in s.targets
  }

  predicate Distinct<T(==)>(chain: seq<T>) {
    forall i, j :: 0 <= i < j < |chain| ==> chain[i] != chain[j]
  }

  /** Every node is in the chain once, and the index leads into the chain. */
  predicate Good<T(==)>(s: Requests<T>) {
    Distinct(s.chain) && forall id :: id in s.targets ==> s.targets[id] in s.chain
  }

  /** `a` stands in front of `b`. */
  ghost predicate Precedes<T>(chain: seq<T>, a: T, b: T) {
    exists i, j :: 0 <= i < j < |chain| && chain[i] == a && chain[j] == b
  }

  lemma {:induction false} InsertBehindAt<T>(chain: seq<T>, i: nat, x: T, node: T)
    requires i < |chain| && chain[i] == x && Distinct(chain)
    ensures InsertBehind(chain, x, node) == chain[..i + 1] + [node] + chain[i + 1..]
  {
    if i == 0 {
    } else {
      InsertBehindAt(chain[1..], i - 1, x, node);
      assert chain[1..][..i] == chain[1..i + 1] && chain[1..][i..] == chain[i + 1..];
    }
  }

  /** The new node stands directly behind its dependency, behind a new dummy for it, or at
      the end; what was there keeps its order. */
  lemma InsertPlaces<T>(s: Requests<T>, node: T, id: nat, dependency: nat, dummy: T) returns (k: nat)
    requires Good(s)
    ensures var chain := Inserted(s, node, id, dependency, dummy).chain;
      && k <= |s.chain|
      && chain == s.chain[..k] + (if MakesDummy(s, dependency) then [dummy, node] else [node]) + s.chain[k..]
      && (dependency in s.targets && dependency != 0 ==> k > 0 && s.chain[k - 1] == s.targets[dependency])
      && (dependency == 0 || dependency !in s.targets ==> k == |s.chain|)
  {
    k := |s.chain|;
    if dependency != 0 && dependency in s.targets {
      var i :| 0 <= i < |s.chain| && s.chain[i] == s.targets[dependency];
      InsertBehindAt(s.chain, i, s.targets[dependency], node);
      k := i + 1;
    }
  }

  lemma InsertedIsThere<T>(s: Requests<T>, node: T, dependency: nat, dummy: T)
    requires Good(s)
    ensures node in Placed(s, node, dependency, dummy).chain
  {
    var k := InsertPlaces(s, node, 0, dependency, dummy);
    var chain := Placed(s, node, dependency, dummy).chain;
    assert chain[if MakesDummy(s, dependency) then k + 1 else k] == node;
  }

  predicate Fresh<T(==)>(s: Requests<T>, node: T, dummy: T) {
    node !in s.chain && dummy !in s.chain && node != dummy
  }

  lemma SpliceDistinct<T>(chain: seq<T>, k: nat, mid: seq<T>)
    requires Distinct(chain) && k <= |chain| && Distinct(mid)
    requires forall x :: x in mid ==> x !in chain
    ensures Distinct(chain[..k] + mid + chain[k..])
    ensures forall x :: x in chain || x in mid <==> x in chain[..k] + mid + chain[k..]
  {
    var t := chain[..k] + mid + chain[k..];
    forall i | 0 <= i < |chain| ensures chain[i] == t[if i < k then i else i + |mid|] {
    }
    forall i | 0 <= i < |mid| ensures mid[i] == t[k + i] {
    }
    forall i, j | 0 <= i < j < |t| ensures t[i] != t[j] {
      assert k <= i < k + |mid| ==> t[i] in mid;
      assert k <= j < k + |mid| ==> t[j] in mid;
    }
  }

  lemma SpliceKeepsOrder<T>(chain: seq<T>, k: nat, mid: seq<T>, a: T, b: T)
    requires k <= |chain| && Precedes(chain, a, b)
    ensures Precedes(chain[..k] + mid + chain[k..], a, b)
  {
    var t := chain[..k] + mid + chain[k..];
    var i, j :| 0 <= i < j < |chain| && chain[i] == a && chain[j] == b;
    var i', j' := if i < k then i else i + |mid|, if j < k then j else j + |mid|;
    assert t[i'] == a && t[j'] == b;
  }

  lemma InsertGood<T>(s: Requests<T>, node: T, id: nat, dependency: nat, dummy: T)
    requires Good(s) && Fresh(s, node, dummy)
    ensures Good(Inserted(s, node, id, dependency, dummy))
    ensures forall x :: x in Inserted(s, node, id, dependency, dummy).chain <==>
              x in s.chain || x == node || (x == dummy && MakesDummy(s, dependency))
    ensures forall a, b :: Precedes(s.chain, a, b) ==> Precedes(Inserted(s, node, id, dependency, dummy).chain, a, b)
  {
    var k := InsertPlaces(s, node, id, dependency, dummy);
    var mid := if MakesDummy(s, dependency) then [dummy, node] else [node];
    SpliceDistinct(s.chain, k, mid);
    forall a, b | Precedes(s.chain, a, b) ensures Precedes(Inserted(s, node, id, dependency, dummy).chain, a, b) {
      SpliceKeepsOrder(s.chain, k, mid, a, b);
    }
  }

  // ----- any sequence of inserts -----

  datatype Insert<T> = Insert(node: T, id: nat, dependency: nat, dummy: T)

  function InsertedAll<T(==)>(s: Requests<T>, inserts: seq<Insert<T>>): Requests<T>
    decreases |inserts|
  {
    if inserts == [] then s else
      var i := inserts[0];
      InsertedAll(Inserted(s, i.node, i.id, i.dependency, i.dummy), inserts[1..])
  }

  /** Each insert brings a node of its own, and a dummy to be made if need be. */
  predicate AllFresh<T(==)>(s: Requests<T>, inserts: seq<Insert<T>>) {
    && (forall i :: 0 <= i < |inserts| ==> Fresh(s, inserts[i].node, inserts[i].dummy))
    && (forall i, j :: 0 <= i < j < |inserts| ==> Apart(inserts[i], inserts[j]))
  }

  predicate Apart<T(==)>(a: Insert<T>, b: Insert<T>) {
    a.node != b.node && a.node != b.dummy && a.dummy != b.node && a.dummy != b.dummy
  }

  lemma FreshAfter<T>(s: Requests<T>, inserts: seq<Insert<T>>)
    requires Good(s) && AllFresh(s, inserts) && inserts != []
    ensures var i := inserts[0]; AllFresh(Inserted(s, i.node, i.id, i.dependency, i.dummy), inserts[1..])
  {
    var i := inserts[0];
    InsertGood(s, i.node, i.id, i.dependency, i.dummy);
    var t := Inserted(s, i.node, i.id, i.dependency, i.dummy);
    forall j | 0 <= j < |inserts[1..]| ensures Fresh(t, inserts[1..][j].node, inserts[1..][j].dummy) {
      assert Fresh(s, inserts[j + 1].node, inserts[j + 1].dummy) && Apart(i, inserts[j + 1]);
    }
  }

  /** What insert `i` of the run brings into the chain: its node, and its dummy if its
      dependency was unknown by then. */
  ghost predicate Brings<T>(s: Requests<T>, inserts: seq<Insert<T>>, i: nat, x: T)
    requires i < |inserts|
  {
    || x == inserts[i].node
    || (x == inserts[i].dummy && MakesDummy(InsertedAll(s, inserts[..i]), inserts[i].dependency))
  }

  lemma BringsLater<T>(s: Requests<T>, inserts: seq<Insert<T>>, i: nat, x: T)
    requires 0 < i < |inserts|
    ensures var first := inserts[0]; var t := Inserted(s, first.node, first.id, first.dependency, first.dummy);
      Brings(s, inserts, i, x) <==> Brings(t, inserts[1..], i - 1, x)
  {
    assert inserts[..i][1..] == inserts[1..][..i - 1];
  }

  lemma BroughtByFirst<T>(s: Requests<T>, inserts: seq<Insert<T>>, x: T)
    requires Good(s) && AllFresh(s, inserts) && inserts != []
    ensures var first := inserts[0]; var t := Inserted(s, first.node, first.id, first.dependency, first.dummy);
      x in t.chain <==> x in s.chain || Brings(s, inserts, 0, x)
  {
    var first := inserts[0];
    InsertGood(s, first.node, first.id, first.dependency, first.dummy);
    assert InsertedAll(s, inserts[..0]) == s;
  }

  /** The chain holds what it held, every node inserted, every dummy made, and nothing else. */
  lemma {:induction false} RunHolds<T>(s: Requests<T>, inserts: seq<Insert<T>>, x: T)
    requires Good(s) && AllFresh(s, inserts)
    ensures x in InsertedAll(s, inserts).chain <==>
              x in s.chain || exists i :: 0 <= i < |inserts| && Brings(s, inserts, i, x)
    decreases |inserts|
  {
    if inserts == [] {
    } else {
      var first := inserts[0];
      var t := Inserted(s, first.node, first.id, first.dependency, first.dummy);
      InsertGood(s, first.node, first.id, first.dependency, first.dummy);
      FreshAfter(s, inserts);
      BroughtByFirst(s, inserts, x);
      RunHolds(t, inserts[1..], x);
      if i :| 0 <= i < |inserts[1..]| && Brings(t, inserts[1..], i, x) {
        BringsLater(s, inserts, i + 1, x);
      }
      if i :| 0 < i < |inserts| && Brings(s, inserts, i, x) {
        BringsLater(s, inserts, i, x);
      }
    }
  }

  lemma {:induction false} RunKeeps<T>(s: Requests<T>, inserts: seq<Insert<T>>)
    requires Good(s) && AllFresh(s, inserts)
    ensures Good(InsertedAll(s, inserts))
    ensures forall a, b :: Precedes(s.chain, a, b) ==> Precedes(InsertedAll(s, inserts).chain, a, b)
    decreases |inserts|
  {
    if inserts == [] {
    } else {
      var i := inserts[0];
      InsertGood(s, i.node, i.id, i.dependency, i.dummy);
      FreshAfter(s, inserts);
      RunKeeps(Inserted(s, i.node, i.id, i.dependency, i.dummy), inserts[1..]);
    }
  }

  /** After any inserts the chain is free of repetitions and contains every target of the
      index, keeps the earlier order, and holds what it held, every node inserted and every
      dummy made, and nothing else. */
  lemma RunGood<T>(s: Requests<T>, inserts: seq<Insert<T>>)
    requires Good(s) && AllFresh(s, inserts)
    ensures Good(InsertedAll(s, inserts))
    ensures forall a, b :: Precedes(s.chain, a, b) ==> Precedes(InsertedAll(s, inserts).chain, a, b)
    ensures forall x :: x in InsertedAll(s, inserts).chain <==>
              x in s.chain || exists i :: 0 <= i < |inserts| && Brings(s, inserts, i, x)
  {
    RunKeeps(s, inserts);
    forall x ensures x in InsertedAll(s, inserts).chain <==>
              x in s.chain || exists i :: 0 <= i < |inserts| && Brings(s, inserts, i, x)
    {
      RunHolds(s, inserts, x);
    }
  }

  /** What an insert does to the index: what is there stays, an unknown dependency leads to
      its dummy, and a new stream to its node; no other stream is added. */
  lemma InsertIndexes<T>(s: Requests<T>, node: T, id: nat, dependency: nat, dummy: T)
    ensures var targets := Inserted(s, node, id, dependency, dummy).targets;
      && (forall i :: i in s.targets ==> i in targets && targets[i] == s.targets[i])
      && (MakesDummy(s, dependency) ==> dependency in targets && targets[dependency] == dummy)
      && (id !in s.targets && !(MakesDummy(s, dependency) && id == dependency) ==> id in targets && targets[id] == node)
      && forall i :: i in targets ==> i in s.targets || i == id || (i == dependency && MakesDummy(s, dependency))
  {
  }

  /** What the first insert that mentions a stream, as its own or as a dependency, brings
      for it. */
  function FirstTarget<T>(inserts: seq<Insert<T>>, id: nat): Option<T>
    decreases |inserts|
  {
    if inserts == [] then None
    else if id != 0 && inserts[0].dependency == id then Some(inserts[0].dummy)
    else if inserts[0].id == id then Some(inserts[0].node)
    else FirstTarget(inserts[1..], id)
  }

  function Target<T>(s: Requests<T>, id: nat): Option<T> {
    if id in s.targets then Some(s.targets[id]) else None
  }

  /** After any inserts, a stream that was not there leads to what the first insert that
      mentions it has brought for it; one that was there leads where it led. */
  lemma {:induction false} RunIndexes<T>(s: Requests<T>, inserts: seq<Insert<T>>, id: nat)
    ensures Target(InsertedAll(s, inserts), id) == if id in s.targets then Target(s, id) else FirstTarget(inserts, id)
    decreases |inserts|
  {
    if inserts == [] {
    } else {
      var i := inserts[0];
      InsertIndexes(s, i.node, i.id, i.dependency, i.dummy);
      RunIndexes(Inserted(s, i.node, i.id, i.dependency, i.dummy), inserts[1..], id);
    }
  }

  // ----- the linked list -----

  /** `header_request`, as far as the list is concerned */
  class HeaderRequest {
    var streamIdentifier: nat
    var next: HeaderRequest?
    var deleted: bool

    constructor (streamIdentifier: nat)
      ensures this.streamIdentifier == streamIdentifier && next == null && !deleted
    {
      this.streamIdentifier := streamIdentifier;
      next, deleted := null, false;
    }

    /** `->next`, which must not happen after `delete` */
    method Next() returns (request: HeaderRequest?)
      requires !deleted
      ensures request == next
    {
      request := next;
    }

    /** `delete`, which must not happen twice */
    method Delete()
      requires !deleted
      modifies this`deleted
      ensures deleted
    {
      deleted := true;
    }
  }

  ghost predicate Linked(chain: seq<HeaderRequest>, i: nat)
    requires i < |chain|
    reads chain
  {
    !chain[i].deleted && chain[i].next == if i + 1 < |chain| then chain[i + 1] else null
  }

  /** Node `i` of a chain leads to `node`, which leads to what is behind node `i`. */
  lemma LinkedBehind(before: seq<HeaderRequest>, i: nat, node: HeaderRequest, j: nat)
    requires i < |before| && j <= |before|
    requires forall k :: 0 <= k < |before| && k != i ==> Linked(before, k)
    requires !before[i].deleted && before[i].next == node
    requires !node.deleted && node.next == if i + 1 < |before| then before[i + 1] else null
    ensures Linked(before[..i + 1] + [node] + before[i + 1..], j)
  {
    if j < i {
      assert Linked(before, j);
    } else if j > i + 1 {
      assert Linked(before, j - 1);
    }
  }

  class RequestChain {
    var first: HeaderRequest?
    var last: HeaderRequest?
    var headerMap: map<nat, HeaderRequest>
    ghost var chain: seq<HeaderRequest>

    ghost predicate Valid()
      reads this, chain
    {
      && Good(Requests(chain, headerMap))
      && first == (if chain == [] then null else chain[0])
      && last == (if chain == [] then null else chain[|chain| - 1])
      && forall i :: 0 <= i < |chain| ==> Linked(chain, i)
    }

    ghost function Current(): Requests<HeaderRequest>
      reads this
    {
      Requests(chain, headerMap)
    }

    constructor ()
      ensures Valid() && chain == [] && headerMap == map[]
    {
      first, last, headerMap, chain := null, null, map[], [];
    }

    /** Linking nodes at the end. */
    method Append(head: HeaderRequest, tail: HeaderRequest, ghost nodes: seq<HeaderRequest>)
      requires Valid() && nodes != [] && head == nodes[0] && tail == nodes[|nodes| - 1] && Distinct(nodes)
      requires forall x :: x in nodes ==> x !in chain
      requires forall i :: 0 <= i < |nodes| ==> Linked(nodes, i)
      modifies this`first, this`last, this`chain, chain`next
      ensures Valid() && chain == old(chain) + nodes && headerMap == old(headerMap)
    {
      SpliceDistinct(chain, |chain|, nodes);
      assert chain[..|chain|] + nodes + chain[|chain|..] == chain + nodes;
      if last != null {
        assert last in chain && Linked(chain, |chain| - 1);
        last.next := head;
      } else {
        first := head;
      }
      last := tail;
      chain := chain + nodes;
      forall i | 0 <= i < |chain| ensures Linked(chain, i) {
        if i >= old(|chain|) {
          assert Linked(nodes, i - old(|chain|));
        } else {
          assert old(Linked(chain, i));
        }
      }
    }

    /** A node put directly behind another one. */
    method LinkBehind(request: HeaderRequest, node: HeaderRequest, ghost i: nat)
      requires Valid() && i < |chain| && chain[i] == request && node !in chain && !node.deleted
      modifies this`last, this`chain, request`next, node`next
      ensures Valid() && chain == old(chain[..i + 1] + [node] + chain[i + 1..]) && headerMap == old(headerMap)
    {
      SpliceDistinct(chain, i + 1, [node]);
      assert Linked(chain, i);
      node.next := request.next;
      request.next := node;
      if request == last {
        last := node;
      }
      ghost var before := chain;
      chain := chain[..i + 1] + [node] + chain[i + 1..];
      forall k | 0 <= k < |before| && k != i ensures Linked(before, k) {
        assert old(Linked(before, k));
      }
      forall j | 0 <= j < |chain| ensures Linked(chain, j) {
        LinkedBehind(before, i, node, j);
      }
    }

    /** A dependency that is not known yet gets a node of its own. */
    method AppendWithDummy(node: HeaderRequest, dependency: nat) returns (request: HeaderRequest)
      requires Valid() && node !in chain && node.next == null && !node.deleted && MakesDummy(Current(), dependency)
      modifies this, chain`next
      ensures Valid() && Current() == Placed(old(Current()), node, dependency, request)
      ensures fresh(request) && request.streamIdentifier == dependency
    {
      request := new HeaderRequest(dependency);
      request.next := node;
      Append(request, node, [request, node]);
      headerMap := headerMap[dependency := request];
    }

    method LinkBehindDependency(node: HeaderRequest, dependency: nat)
      requires Valid() && node !in chain && !node.deleted && dependency in headerMap
      modifies this`last, this`chain, chain`next, node`next
      ensures Valid() && headerMap == old(headerMap)
      ensures chain == InsertBehind(old(chain), headerMap[dependency], node)
    {
      var request := headerMap[dependency];
      ghost var i :| 0 <= i < |chain| && chain[i] == request;
      InsertBehindAt(chain, i, request, node);
      LinkBehind(request, node, i);
    }

    /** The three cases. */
    method Place(node: HeaderRequest, dependency: nat) returns (ghost dummy: HeaderRequest)
      requires Valid() && node !in chain && node.next == null && !node.deleted
      modifies this, chain`next, node`next
      ensures Valid() && Current() == Placed(old(Current()), node, dependency, dummy)
      ensures MakesDummy(old(Current()), dependency) ==> fresh(dummy) && dummy.streamIdentifier == dependency
    {
      dummy := node;
      if dependency != 0 {
        if dependency !in headerMap {
          dummy := AppendWithDummy(node, dependency);
        } else {
          LinkBehindDependency(node, dependency);
        }
      } else {
        Append(node, node, [node]);
      }
    }

    /** `insert` */
    method Insert(node: HeaderRequest, dependency: nat) returns (ghost dummy: HeaderRequest)
      requires Valid() && node !in chain && node.next == null && !node.deleted
      modifies this, chain`next, node`next
      ensures Valid() && Current() == Inserted(old(Current()), node, old(node.streamIdentifier), dependency, dummy)
      ensures MakesDummy(old(Current()), dependency) ==> fresh(dummy) && dummy.streamIdentifier == dependency
    {
      ghost var before := Current();
      var id := node.streamIdentifier;
      dummy := Place(node, dependency);
      InsertedIsThere(before, node, dependency, dummy);
      IndexNode(node, id);
    }

    /** `header_map.insert`, which leaves an entry that is there */
    method IndexNode(node: HeaderRequest, id: nat)
      requires Valid() && node in chain
      modifies this`headerMap
      ensures Valid() && headerMap == if id in old(headerMap) then old(headerMap) else old(headerMap)[id := node]
    {
      if id !in headerMap {
        headerMap := headerMap[id := node];
      }
    }

    /** The destructor: every node of the chain is deleted, each once, and none is read
        after it has been deleted. */
    method Destroy()
      requires Valid()
      modifies this`first, chain`deleted
      ensures first == null && forall x :: x in old(chain) ==> x.deleted
    {
      ghost var done := 0;
      while first != null
        invariant done <= |chain| && first == (if done < |chain| then chain[done] else null)
        invariant forall i :: 0 <= i < done ==> chain[i].deleted
        invariant forall i :: done <= i < |chain| ==> Linked(chain, i)
        decreases |chain| - done
      {
        assert Linked(chain, done);
        var next := first.Next();
        label Before:
        first.Delete();
        forall i | done < i < |chain| ensures Linked(chain, i) {
          assert old@Before(Linked(chain, i)) && chain[i] != chain[done];
        }
        first := next;
        done := done + 1;
      }
    }
  }
}
