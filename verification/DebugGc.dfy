/** Which debugging entries survive: a dependency graph built by a walk over the entry tree and
    the closure of its roots. */
module DebugGc {

  /** The tags that matter to the walk. */
  datatype Tag =
    | Variable | Constant | InlinedSubroutine | LexicalBlock | LabelTag | WithStmt | TryBlock | CatchBlock
    | TemplateTypeParameter | Member | FormalParameter | OtherTag

  /** An entry: its offset, its references to other entries, whether its code range can be
      translated, and its children. */
  datatype Die = Die(offset: nat, tag: Tag, refs: seq<nat>, hasCode: bool, children: seq<Die>)

  /** `has_die_back_edge`. */
  predicate HasBackEdge(d: Die) {
    match d.tag
    case Variable => true
    case Constant => true
    case InlinedSubroutine => true
    case LexicalBlock => true
    case LabelTag => true
    case WithStmt => true
    case TryBlock => true
    case CatchBlock => true
    case TemplateTypeParameter => true
    case Member => true
    case FormalParameter => true
    case _ => false
  }

  type Edge = (nat, nat)

  // ---------------------------------------------------------------- the graph of a tree

  function RefEdges(d: Die): set<Edge> {
    set i | 0 <= i < |d.refs| :: (d.offset, d.refs[i])
  }

  function LinkEdges(parent: nat, c: Die): set<Edge> {
    {(c.offset, parent)} + if HasBackEdge(c) then {(parent, c.offset)} else {}
  }

  ghost function TreeEdges(d: Die): set<Edge>
    decreases d, 1
  {
    RefEdges(d) + ChildEdges(d, |d.children|)
  }

  ghost function ChildEdges(d: Die, n: nat): set<Edge>
    requires n <= |d.children|
    decreases d, 0, n
  {
    if n == 0 then {} else
    ChildEdges(d, n - 1) + LinkEdges(d.offset, d.children[n - 1]) + TreeEdges(d.children[n - 1])
  }

  ghost function TreeRoots(d: Die, n: nat): set<nat>
    requires n <= |d.children|
    decreases d, n
  {
    if n == 0 then {} else
    var c := d.children[n - 1];
    TreeRoots(d, n - 1) + (if c.hasCode then {c.offset} else {}) + TreeRoots(c, |c.children|)
  }

  // ---------------------------------------------------------------- closure

  ghost predicate Closed(edges: set<Edge>, s: set<nat>) {
    forall e :: e in edges && e.0 in s ==> e.1 in s
  }

  /** The least set that contains the roots and is closed under the edges. */
  ghost predicate IsClosure(edges: set<Edge>, roots: set<nat>, s: set<nat>) {
    && roots <= s && Closed(edges, s)
    && forall t: set<nat> :: roots <= t && Closed(edges, t) ==> s <= t
  }

  lemma ClosureUnique(edges: set<Edge>, roots: set<nat>, s: set<nat>, t: set<nat>)
    requires IsClosure(edges, roots, s) && IsClosure(edges, roots, t)
    ensures s == t
  {
  }

  class Dependencies {
    var edges: map<nat, set<nat>>
    var roots: set<nat>

    ghost function Edges(): (s: set<Edge>)
      reads this
      ensures forall e :: e in s <==> e.0 in edges && e.1 in edges[e.0]
    {
      set a, b | a in edges && b in edges[a] :: (a, b)
    }

    constructor ()
      ensures Edges() == {} && roots == {}
    {
      edges, roots := map[], {};
    }

    method AddEdge(a: nat, b: nat)
      modifies this
      ensures Edges() == old(Edges()) + {(a, b)} && roots == old(roots)
    {
      edges := edges[a := (if a in edges then edges[a] else {}) + {b}];
    }

    method AddRoot(r: nat)
      modifies this
      ensures Edges() == old(Edges()) && roots == old(roots) + {r}
    {
      roots := roots + {r};
    }

    // ------------------------------------------------------------ the walk

    /** `build_die_dependencies`. */
    method Build(d: Die)
      modifies this
      ensures Edges() == old(Edges()) + TreeEdges(d)
      ensures roots == old(roots) + TreeRoots(d, |d.children|)
      decreases d, 1
    {
      hide Edges, LinkEdges, RefEdges;
      AddRefs(d);
      for n := 0 to |d.children|
        invariant Edges() == old(Edges()) + RefEdges(d) + ChildEdges(d, n)
        invariant roots == old(roots) + TreeRoots(d, n)
      {
        BuildChild(d, n);
      }
    }

    method AddRefs(d: Die)
      modifies this
      ensures Edges() == old(Edges()) + RefEdges(d) && roots == old(roots)
    {
      for i := 0 to |d.refs|
        invariant Edges() == old(Edges()) + (set k | 0 <= k < i :: (d.offset, d.refs[k])) && roots == old(roots)
      {
        AddEdge(d.offset, d.refs[i]);
      }
    }

    method BuildChild(d: Die, n: nat)
      requires n < |d.children|
      modifies this
      ensures Edges() == old(Edges()) + LinkEdges(d.offset, d.children[n]) + TreeEdges(d.children[n])
      ensures var c := d.children[n];
              roots == old(roots) + (if c.hasCode then {c.offset} else {}) + TreeRoots(c, |c.children|)
      decreases d, 0
    {
      hide TreeEdges, TreeRoots;
      var c := d.children[n];
      AddEdge(c.offset, d.offset);
      if HasBackEdge(c) {
        AddEdge(d.offset, c.offset);
      }
      if c.hasCode {
        AddRoot(c.offset);
      }
      Build(c);
    }

    // ------------------------------------------------------------ reachability

    /** Everything is explored except the entries of `todo` and `queue`. */
    ghost predicate Explored(reachable: set<nat>, todo: set<nat>, queue: seq<nat>)
      reads this
    {
      forall x :: x in reachable && x !in todo && x !in queue && x in edges ==> edges[x] <= reachable
    }

    /** Nothing is included without need. */
    ghost predicate Needed(reachable: set<nat>)
      reads this
    {
      forall t: set<nat> :: roots <= t && Closed(Edges(), t) ==> reachable <= t
    }

    ghost function Universe(): set<nat>
      reads this
    {
      set a, b | a in edges && b in edges[a] :: b
    }

    /** Adds the successors of `i` that are new, to the set and to the queue. */
    method Expand(i: nat, reachable: set<nat>, queue: seq<nat>) returns (more: set<nat>, next: seq<nat>)
      requires i in reachable && Needed(reachable)
      ensures reachable <= more && Needed(more) && more <= reachable + Universe()
      ensures i in edges ==> edges[i] <= more
      ensures forall x :: x in next <==> x in queue || (x in more && x !in reachable)
      ensures more == reachable ==> next == queue
    {
      more, next := reachable, queue;
      if i in edges {
        var deps := edges[i];
        while deps != {}
          invariant deps <= edges[i] && edges[i] - deps <= more
          invariant reachable <= more && Needed(more) && more <= reachable + Universe()
          invariant forall x :: x in next <==> x in queue || (x in more && x !in reachable)
          invariant more == reachable ==> next == queue
          decreases |deps|
        {
          var j :| j in deps;
          deps := deps - {j};
          if j !in more {
            StillNeeded(more, i, j);
            more := more + {j};
            next := next + [j];
          }
        }
      }
    }

    lemma StillNeeded(reachable: set<nat>, i: nat, j: nat)
      requires Needed(reachable) && i in reachable && i in edges && j in edges[i]
      ensures Needed(reachable + {j})
    {
      forall t: set<nat> | roots <= t && Closed(Edges(), t)
        ensures reachable + {j} <= t
      {
        assert (i, j) in Edges();
      }
    }

    /** `get_reachable`: exactly the least closed set, always found. */
    method GetReachable() returns (reachable: set<nat>)
      ensures IsClosure(Edges(), roots, reachable)
    {
      hide Needed, Universe;
      NeededRoots();
      reachable := roots;
      var queue: seq<nat> := [];
      var todo := roots;
      while todo != {}
        invariant todo <= roots <= reachable && Needed(reachable) && (forall x :: x in queue ==> x in reachable)
        invariant Explored(reachable, todo, queue)
        decreases |todo|
      {
        var i :| i in todo;
        todo := todo - {i};
        reachable, queue := Expand(i, reachable, queue);
      }
      while queue != []
        invariant roots <= reachable && Needed(reachable) && (forall x :: x in queue ==> x in reachable)
        invariant Explored(reachable, {}, queue)
        decreases |Universe() - reachable|, |queue|
      {
        var i := queue[|queue| - 1];
        ghost var was := reachable;
        PoppedQueue(queue);
        queue := queue[..|queue| - 1];
        reachable, queue := Expand(i, reachable, queue);
        if reachable != was {
          Fewer(Universe(), was, reachable);
        }
      }
      Finished(reachable);
    }

    lemma NeededRoots()
      ensures Needed(roots)
    {
    }

    lemma Finished(reachable: set<nat>)
      requires roots <= reachable && Needed(reachable) && Explored(reachable, {}, [])
      ensures IsClosure(Edges(), roots, reachable)
    {
      forall e | e in Edges() && e.0 in reachable
        ensures e.1 in reachable
      {
        assert e.1 in edges[e.0];
      }
    }
  }

  lemma PoppedQueue(q: seq<nat>)
    requires |q| > 0
    ensures forall x :: x in q <==> x in q[..|q| - 1] || x == q[|q| - 1]
  {
    assert q == q[..|q| - 1] + [q[|q| - 1]];
  }

  lemma Fewer(u: set<nat>, a: set<nat>, b: set<nat>)
    requires a <= b <= a + u && a != b
    ensures |u - b| < |u - a|
  {
    assert exists x :: x in b && x !in a;
    var x :| x in b && x !in a;
    assert u - b <= u - a - {x};
    var s, t := u - b, u - a - {x};
    assert t == s + (t - s);
  }

  // ---------------------------------------------------------------- what survives

  /** With an entry its parent, the entries it refers to and its children with one of the named tags
      are kept; and every entry below the unit whose code can be translated is. */
  ghost predicate WellKept(d: Die, kept: set<nat>)
    decreases d
  {
    && (d.offset in kept ==> forall i :: 0 <= i < |d.refs| ==> d.refs[i] in kept)
    && forall n :: 0 <= n < |d.children| ==>
         && (d.children[n].offset in kept ==> d.offset in kept)
         && (d.offset in kept && d.children[n].tag != OtherTag ==> d.children[n].offset in kept)
         && (d.children[n].hasCode ==> d.children[n].offset in kept)
         && WellKept(d.children[n], kept)
  }

  lemma {:induction false} ChildContributes(d: Die, n: nat, k: nat)
    requires n < k <= |d.children|
    ensures LinkEdges(d.offset, d.children[n]) + TreeEdges(d.children[n]) <= ChildEdges(d, k)
    ensures d.children[n].hasCode ==> d.children[n].offset in TreeRoots(d, k)
    ensures TreeRoots(d.children[n], |d.children[n].children|) <= TreeRoots(d, k)
    decreases k
  {
    if n < k - 1 {
      ChildContributes(d, n, k - 1);
    }
  }

  /** The closure of the graph of a tree keeps everything that belongs together. */
  lemma {:induction false} ClosureKeeps(d: Die, edges: set<Edge>, kept: set<nat>)
    requires TreeEdges(d) <= edges && Closed(edges, kept) && TreeRoots(d, |d.children|) <= kept
    ensures WellKept(d, kept)
    decreases d
  {
    if d.offset in kept {
      forall i | 0 <= i < |d.refs|
        ensures d.refs[i] in kept
      {
        assert (d.offset, d.refs[i]) in RefEdges(d);
      }
    }
    forall n | 0 <= n < |d.children|
      ensures d.children[n].offset in kept ==> d.offset in kept
      ensures d.offset in kept && HasBackEdge(d.children[n]) ==> d.children[n].offset in kept
      ensures d.children[n].hasCode ==> d.children[n].offset in kept
      ensures WellKept(d.children[n], kept)
    {
      var c := d.children[n];
      ChildContributes(d, n, |d.children|);
      assert (c.offset, d.offset) in LinkEdges(d.offset, c);
      assert HasBackEdge(c) ==> (d.offset, c.offset) in LinkEdges(d.offset, c);
      ClosureKeeps(c, edges, kept);
    }
  }

  /** And nothing else is asked of a set: one that keeps what belongs together is closed. */
  lemma {:induction false} KeptIsClosed(d: Die, kept: set<nat>)
    requires WellKept(d, kept)
    ensures Closed(TreeEdges(d), kept) && TreeRoots(d, |d.children|) <= kept
    decreases d, |d.children| + 1
  {
    KeptChildren(d, kept, |d.children|);
    assert Closed(RefEdges(d), kept);
  }

  lemma {:induction false} KeptChildren(d: Die, kept: set<nat>, n: nat)
    requires WellKept(d, kept) && n <= |d.children|
    ensures Closed(ChildEdges(d, n), kept) && TreeRoots(d, n) <= kept
    decreases d, n
  {
    if n > 0 {
      var c := d.children[n - 1];
      KeptChildren(d, kept, n - 1);
      assert WellKept(c, kept);
      KeptIsClosed(c, kept);
      assert Closed(LinkEdges(d.offset, c), kept);
    }
  }

  ghost predicate AllWellKept(units: seq<Die>, kept: set<nat>) {
    forall u :: 0 <= u < |units| ==> WellKept(units[u], kept)
  }

  lemma {:induction false} ForestClosed(units: seq<Die>, kept: set<nat>, n: nat)
    requires n <= |units| && AllWellKept(units, kept)
    ensures Closed(ForestEdges(units, n), kept) && ForestRoots(units, n) <= kept
    decreases n
  {
    hide WellKept, TreeEdges, TreeRoots;
    if n > 0 {
      ForestClosed(units, kept, n - 1);
      KeptIsClosed(units[n - 1], kept);
    }
  }

  ghost function ForestEdges(units: seq<Die>, n: nat): set<Edge>
    requires n <= |units|
  {
    if n == 0 then {} else ForestEdges(units, n - 1) + TreeEdges(units[n - 1])
  }

  ghost function ForestRoots(units: seq<Die>, n: nat): set<nat>
    requires n <= |units|
  {
    if n == 0 then {} else ForestRoots(units, n - 1) + TreeRoots(units[n - 1], |units[n - 1].children|)
  }

  lemma {:induction false} UnitContributes(units: seq<Die>, u: nat, n: nat)
    requires u < n <= |units|
    ensures TreeEdges(units[u]) <= ForestEdges(units, n)
    ensures TreeRoots(units[u], |units[u].children|) <= ForestRoots(units, n)
    decreases n
  {
    if u < n - 1 {
      UnitContributes(units, u, n - 1);
    }
  }

  /** Units one after the other into one graph, then the closure: the least set that keeps what belongs
      together in every unit. */
  method Collect(units: seq<Die>) returns (kept: set<nat>)
    ensures AllWellKept(units, kept)
    ensures forall t: set<nat> :: AllWellKept(units, t) ==> kept <= t
  {
    hide TreeEdges, TreeRoots, WellKept;
    var deps := new Dependencies();
    for u := 0 to |units|
      invariant fresh(deps)
      invariant deps.Edges() == ForestEdges(units, u) && deps.roots == ForestRoots(units, u)
    {
      deps.Build(units[u]);
    }
    kept := deps.GetReachable();
    forall u | 0 <= u < |units|
      ensures WellKept(units[u], kept)
    {
      UnitContributes(units, u, |units|);
      ClosureKeeps(units[u], deps.Edges(), kept);
    }
    forall t: set<nat> | AllWellKept(units, t)
      ensures kept <= t
    {
      ForestClosed(units, t, |units|);
    }
  }
}
