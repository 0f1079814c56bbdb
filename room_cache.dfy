/** The room cache of the extension as values: the edges a room-list query
    returns, the dictionary of room names to room ids filled from them, the
    insertion order of that dictionary's keys, and the order in which the
    names are offered to the user. */
module RoomCache {

  /** One `edge.node` of the room-list response: a room's name and its id. */
  datatype Edge = Edge(name: string, id: string)

  predicate Distinct(s: seq<string>)
  {
    forall i, j :: 0 <= i < j < |s| ==> s[i] != s[j]
  }

  /** The one name an assignment to a fresh object does not store: it reaches
      the inherited `__proto__` setter, which ignores a string value. */
  const PROTO := "__proto__"

  /** The room name `k` is carried by some edge. */
  ghost predicate Occurs(edges: seq<Edge>, k: string)
  {
    exists j :: 0 <= j < |edges| && edges[j].name == k
  }

  /** Key order of an object after assigning to key `n`: a new key goes last,
      an existing key keeps its place. */
  function Insert(ks: seq<string>, n: string): seq<string>
  {
    if n in ks then ks else ks + [n]
  }

  /** The keys of the dictionary, in insertion order, after assigning every
      edge in turn to an empty dictionary. */
  function NamesOf(edges: seq<Edge>): seq<string>
  {
    if edges == [] then []
    else
      var ks, n := NamesOf(edges[..|edges| - 1]), edges[|edges| - 1].name;
      if n == PROTO then ks else Insert(ks, n)
  }

  /** The dictionary after assigning every edge in turn to an empty one. */
  function MapOf(edges: seq<Edge>): map<string, string>
  {
    if edges == [] then map[]
    else
      var m, e := MapOf(edges[..|edges| - 1]), edges[|edges| - 1];
      if e.name == PROTO then m else m[e.name := e.id]
  }

  /** The keys with every occurrence of `d` removed, order kept. */
  function Without(ks: seq<string>, d: string): seq<string>
  {
    if ks == [] then []
    else Without(ks[..|ks| - 1], d) + (if ks[|ks| - 1] == d then [] else [ks[|ks| - 1]])
  }

  /** The names offered to the user: the keys visited in order, a key equal to
      the default room put in front and every other key put at the back. */
  function DisplayOrder(ks: seq<string>, d: string): seq<string>
  {
    if ks == [] then []
    else
      var rest := DisplayOrder(ks[..|ks| - 1], d);
      if ks[|ks| - 1] == d then [d] + rest else rest + [ks[|ks| - 1]]
  }

  // ---------------------------------------------------------------------------
  // Filling the dictionary from the edges

  /** A name is a key exactly when some edge carries it and it is not
      `__proto__`, and the key sequence and the dictionary agree on which
      names are keys. */
  lemma {:induction false} NamesOfMembers(edges: seq<Edge>, k: string)
    ensures k in NamesOf(edges) <==> Occurs(edges, k) && k != PROTO
    ensures k in MapOf(edges) <==> Occurs(edges, k) && k != PROTO
  {
    if edges != [] {
      var init, last := edges[..|edges| - 1], edges[|edges| - 1];
      NamesOfMembers(init, k);
      if Occurs(edges, k) && k != last.name {
        var j :| 0 <= j < |edges| && edges[j].name == k;
        assert init[j].name == k;
      }
      if Occurs(init, k) {
        var j :| 0 <= j < |init| && init[j].name == k;
        assert edges[j].name == k;
      }
    }
  }

  /** The key sequence never lists a name twice. */
  lemma {:induction false} NamesOfDistinct(edges: seq<Edge>)
    ensures Distinct(NamesOf(edges))
  {
    if edges != [] {
      NamesOfDistinct(edges[..|edges| - 1]);
    }
  }

  /** A repeated name overwrites: the id stored for a name is the one of the
      last edge that carries it. */
  lemma {:induction false} MapOfLastWins(edges: seq<Edge>, j: nat)
    requires j < |edges| && edges[j].name != PROTO
    requires forall j' :: j < j' < |edges| ==> edges[j'].name != edges[j].name
    ensures edges[j].name in MapOf(edges) && MapOf(edges)[edges[j].name] == edges[j].id
  {
    if j < |edges| - 1 {
      var init := edges[..|edges| - 1];
      assert init[j] == edges[j];
      MapOfLastWins(init, j);
    }
  }

  /** The keys are listed in the order in which their names first occur among
      the edges: a repeated name keeps the position of its first edge. */
  lemma {:induction false} NamesOfFirstOrder(edges: seq<Edge>, p: nat, q: nat, jp: nat, jq: nat)
    requires p < q < |NamesOf(edges)|
    requires jp < |edges| && edges[jp].name == NamesOf(edges)[p]
    requires forall j :: 0 <= j < jp ==> edges[j].name != edges[jp].name
    requires jq < |edges| && edges[jq].name == NamesOf(edges)[q]
    requires forall j :: 0 <= j < jq ==> edges[j].name != edges[jq].name
    ensures jp < jq
  {
    var init, last := edges[..|edges| - 1], edges[|edges| - 1];
    var ns := NamesOf(init);
    // Both names are in `ns` unless the last edge brought a new one.
    NamesOfMembers(init, NamesOf(edges)[p]);
    assert NamesOf(edges)[p] in ns by {
      if last.name !in ns { assert NamesOf(edges)[p] == ns[p]; }
    }
    var i :| 0 <= i < |init| && init[i].name == NamesOf(edges)[p];
    assert edges[i].name == edges[jp].name;
    assert jp <= i < |edges| - 1;
    if last.name !in ns && q == |ns| {
      // The second name is new: its first edge is the last one.
      NamesOfMembers(init, last.name);
    } else {
      assert NamesOf(edges)[p] == ns[p] && NamesOf(edges)[q] == ns[q];
      NamesOfMembers(init, ns[q]);
      var i' :| 0 <= i' < |init| && init[i'].name == ns[q];
      assert edges[i'].name == edges[jq].name;
      assert jq <= i' < |edges| - 1;
      forall j | 0 <= j < jp ensures init[j].name != init[jp].name {
        assert init[j] == edges[j];
      }
      forall j | 0 <= j < jq ensures init[j].name != init[jq].name {
        assert init[j] == edges[j];
      }
      NamesOfFirstOrder(init, p, q, jp, jq);
    }
  }

  // ---------------------------------------------------------------------------
  // The order of the offered names

  lemma {:induction false} WithoutAbsent(ks: seq<string>, d: string)
    requires d !in ks
    ensures Without(ks, d) == ks
  {
    if ks != [] {
      WithoutAbsent(ks[..|ks| - 1], d);
      assert ks == ks[..|ks| - 1] + [ks[|ks| - 1]];
    }
  }

  /** `Without` drops exactly the occurrences of `d`, so a distinct key
      sequence stays distinct. */
  lemma {:induction false} WithoutMembers(ks: seq<string>, d: string)
    requires Distinct(ks)
    ensures forall x :: x in Without(ks, d) <==> x in ks && x != d
    ensures Distinct(Without(ks, d))
  {
    if ks != [] {
      var init := ks[..|ks| - 1];
      WithoutMembers(init, d);
      assert ks == init + [ks[|ks| - 1]];
      assert ks[|ks| - 1] !in init;
      assert ks[|ks| - 1] !in Without(init, d);
    }
  }

  /** The offered names are the keys rearranged: the same names, each as often,
      and so as many of them. */
  lemma {:induction false} DisplayOrderPermutation(ks: seq<string>, d: string)
    ensures multiset(DisplayOrder(ks, d)) == multiset(ks)
    ensures |DisplayOrder(ks, d)| == |ks|
  {
    if ks != [] {
      var init := ks[..|ks| - 1];
      DisplayOrderPermutation(init, d);
      assert ks == init + [ks[|ks| - 1]];
    }
    assert |DisplayOrder(ks, d)| == |multiset(DisplayOrder(ks, d))|;
  }

  /** When the default room is not a key, the names are offered in key order. */
  lemma {:induction false} DisplayOrderAbsent(ks: seq<string>, d: string)
    requires d !in ks
    ensures DisplayOrder(ks, d) == ks
  {
    if ks != [] {
      DisplayOrderAbsent(ks[..|ks| - 1], d);
      assert ks == ks[..|ks| - 1] + [ks[|ks| - 1]];
    }
  }

  /** When the default room is one of distinct keys, it is offered first and
      the other keys follow in key order. */
  lemma {:induction false} DisplayOrderFront(ks: seq<string>, d: string)
    requires Distinct(ks) && d in ks
    ensures DisplayOrder(ks, d) == [d] + Without(ks, d)
  {
    var init, last := ks[..|ks| - 1], ks[|ks| - 1];
    assert ks == init + [last];
    if last == d {
      assert d !in init;
      DisplayOrderAbsent(init, d);
      WithoutAbsent(init, d);
    } else {
      assert d in init;
      DisplayOrderFront(init, d);
    }
  }

  /** The offered names never repeat when the keys do not. */
  lemma DisplayOrderDistinct(ks: seq<string>, d: string)
    requires Distinct(ks)
    ensures Distinct(DisplayOrder(ks, d))
  {
    if d in ks {
      DisplayOrderFront(ks, d);
      WithoutMembers(ks, d);
    } else {
      DisplayOrderAbsent(ks, d);
    }
  }
}
