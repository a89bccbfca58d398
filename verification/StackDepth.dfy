/**
 The deepest direct-call path below a function: a depth-first walk that remembers what
 it has measured and cuts recursion where it meets a function already on the path.
 */
module StackDepth {
  type Name = nat

  /** Frame sizes, and each function's callees in the order they will be visited. */
  datatype Graph = Graph(frame: map<Name, nat>, calls: map<Name, seq<Name>>) {
    function Callees(fn: Name): seq<Name> {
      if fn in calls then calls[fn] else []
    }
  }

  datatype Depth = Depth(bytes: nat, chain: seq<Name>)

  type Memo = map<Name, Depth>

  datatype Walked = Walked(depth: Depth, memo: Memo)

  const NOTHING := Depth(0, [])

  function Walk(g: Graph, memo: Memo, onPath: set<Name>, fn: Name): Walked
    decreases g.frame.Keys - onPath, 0
  {
    if fn in memo then Walked(memo[fn], memo)
    else if fn in onPath || fn !in g.frame then Walked(NOTHING, memo)
    else
      assert fn in g.frame.Keys - onPath && fn !in g.frame.Keys - (onPath + {fn});
      var w := Each(g, memo, onPath + {fn}, g.Callees(fn), NOTHING);
      var d := Depth(g.frame[fn] + w.depth.bytes, [fn] + w.depth.chain);
      Walked(d, w.memo[fn := d])
  }

  /** The best over the callees still to visit and what has been found so far. */
  function Each(g: Graph, memo: Memo, onPath: set<Name>, todo: seq<Name>, best: Depth): Walked
    decreases g.frame.Keys - onPath, 1 + |todo|
  {
    if todo == [] then Walked(best, memo)
    else
      var w := Walk(g, memo, onPath, todo[0]);
      Each(g, w.memo, onPath, todo[1..], if w.depth.bytes > best.bytes then w.depth else best)
  }

  function Deepest(g: Graph, root: Name): Depth {
    Walk(g, map[], {}, root).depth
  }

  /** The walk with its shared memo and path, updated in place. */
  class Walker {
    const g: Graph
    var memo: Memo
    var onPath: set<Name>

    constructor (g: Graph)
      ensures this.g == g && memo == map[] && onPath == {}
    {
      this.g := g;
      memo, onPath := map[], {};
    }

    method Visit(fn: Name) returns (d: Depth)
      modifies this
      ensures Walked(d, memo) == Walk(g, old(memo), old(onPath), fn) && onPath == old(onPath)
      decreases g.frame.Keys - onPath
    {
      if fn in memo {
        return memo[fn];
      }
      if fn in onPath || fn !in g.frame {
        return NOTHING;
      }
      assert fn in g.frame.Keys - onPath;
      onPath := onPath + {fn};
      ghost var target := Each(g, memo, onPath, g.Callees(fn), NOTHING);
      var best := NOTHING;
      var callees := g.Callees(fn);
      for k := 0 to |callees|
        invariant onPath == old(onPath) + {fn}
        invariant Each(g, memo, onPath, callees[k..], best) == target
      {
        assert callees[k..][1..] == callees[k + 1..];
        assert fn !in g.frame.Keys - onPath;
        var sub := Visit(callees[k]);
        if sub.bytes > best.bytes {
          best := sub;
        }
      }
      assert callees[|callees|..] == [];
      onPath := onPath - {fn};
      assert onPath == old(onPath);
      d := Depth(g.frame[fn] + best.bytes, [fn] + best.chain);
      memo := memo[fn := d];
    }
  }

  // ----- paths

  /** A path of direct calls between functions that exist. */
  predicate IsPath(g: Graph, p: seq<Name>) {
    && (forall fn <- p :: fn in g.frame)
    && (forall i :: 0 < i < |p| ==> p[i] in g.Callees(p[i - 1]))
  }

  predicate Simple(p: seq<Name>) {
    forall i, j :: 0 <= i < j < |p| ==> p[i] != p[j]
  }

  function Bytes(g: Graph, p: seq<Name>): nat
    requires forall fn <- p :: fn in g.frame
  {
    if p == [] then 0 else g.frame[p[0]] + Bytes(g, p[1..])
  }

  /** A simple path of real calls from `fn`, through measured functions only, of exactly the bytes claimed. */
  predicate Witnessed(g: Graph, memo: Memo, fn: Name, d: Depth) {
    && d.chain != [] && d.chain[0] == fn
    && IsPath(g, d.chain) && Simple(d.chain)
    && d.bytes == Bytes(g, d.chain)
    && (forall x <- d.chain :: x in memo)
  }

  predicate MemoOk(g: Graph, memo: Memo, onPath: set<Name>) {
    && memo.Keys <= g.frame.Keys && memo.Keys !! onPath
    && (forall fn <- memo :: Witnessed(g, memo, fn, memo[fn]))
  }

  /** What a walk may return for `fn`: nothing, or a measurement it now remembers. */
  predicate Returned(memo: Memo, fn: Name, d: Depth) {
    d == NOTHING || (fn in memo && d == memo[fn])
  }

  lemma Grows(g: Graph, memo: Memo, memo': Memo, fn: Name, d: Depth)
    requires Witnessed(g, memo, fn, d) && memo.Keys <= memo'.Keys
    ensures Witnessed(g, memo', fn, d)
  {
  }

  /** Measuring `fn` after its callees: its chain cannot pass through `fn` again. */
  lemma Remember(g: Graph, memo: Memo, onPath: set<Name>, fn: Name, best: Depth)
    requires MemoOk(g, memo, onPath + {fn}) && fn in g.frame && fn !in onPath
    requires best == NOTHING || exists c <- g.Callees(fn) :: c in memo && best == memo[c]
    ensures var d := Depth(g.frame[fn] + best.bytes, [fn] + best.chain);
            MemoOk(g, memo[fn := d], onPath)
  {
    var d := Depth(g.frame[fn] + best.bytes, [fn] + best.chain);
    var m := memo[fn := d];
    assert fn !in memo;
    assert d.chain[1..] == best.chain;
    if best != NOTHING {
      var c :| c in g.Callees(fn) && c in memo && best == memo[c];
      assert Witnessed(g, memo, c, best);
    }
    assert Witnessed(g, m, fn, d);
    forall x | x in m
      ensures Witnessed(g, m, x, m[x])
    {
      if x != fn {
        Grows(g, memo, m, x, memo[x]);
      }
    }
  }

  lemma {:induction false} WalkOk(g: Graph, memo: Memo, onPath: set<Name>, fn: Name)
    requires MemoOk(g, memo, onPath)
    ensures var w := Walk(g, memo, onPath, fn);
            && MemoOk(g, w.memo, onPath) && memo.Keys <= w.memo.Keys
            && (forall x <- memo :: w.memo[x] == memo[x])
            && Returned(w.memo, fn, w.depth)
            && (fn in g.frame && fn !in onPath ==> fn in w.memo && w.depth == w.memo[fn])
    decreases g.frame.Keys - onPath, 0
  {
    hide Witnessed, Simple, IsPath;
    if fn !in memo && fn !in onPath && fn in g.frame {
      assert fn in g.frame.Keys - onPath && fn !in g.frame.Keys - (onPath + {fn});
      var w := Each(g, memo, onPath + {fn}, g.Callees(fn), NOTHING);
      EachOk(g, memo, onPath + {fn}, g.Callees(fn), NOTHING, g.Callees(fn));
      Remember(g, w.memo, onPath, fn, w.depth);
    }
  }

  /** `all` are the callees being visited, of which `todo` remain. */
  lemma {:induction false} EachOk(g: Graph, memo: Memo, onPath: set<Name>, todo: seq<Name>, best: Depth, all: seq<Name>)
    requires MemoOk(g, memo, onPath)
    requires forall x <- todo :: x in all
    requires best == NOTHING || exists c <- all :: c in memo && best == memo[c]
    ensures var w := Each(g, memo, onPath, todo, best);
            && MemoOk(g, w.memo, onPath) && memo.Keys <= w.memo.Keys
            && (forall x <- memo :: w.memo[x] == memo[x])
            && (w.depth == NOTHING || exists c <- all :: c in w.memo && w.depth == w.memo[c])
    decreases g.frame.Keys - onPath, 1 + |todo|
  {
    hide Witnessed, Simple, IsPath;
    if todo != [] {
      var w := Walk(g, memo, onPath, todo[0]);
      WalkOk(g, memo, onPath, todo[0]);
      var better := if w.depth.bytes > best.bytes then w.depth else best;
      EachOk(g, w.memo, onPath, todo[1..], better, all);
    }
  }

  /**
   For every graph, cyclic or not, the walk ends and reports a simple path of real calls
   from the root whose frames add up to the reported bytes: the figure is a true lower
   bound.
   */
  lemma LowerBound(g: Graph, root: Name)
    requires root in g.frame
    ensures var d := Deepest(g, root);
            && d.chain != [] && d.chain[0] == root
            && IsPath(g, d.chain) && Simple(d.chain)
            && d.bytes == Bytes(g, d.chain)
  {
    WalkOk(g, map[], {}, root);
    var w := Walk(g, map[], {}, root);
    assert Witnessed(g, w.memo, root, w.depth);
  }

  // ----- when the figure is the maximum

  predicate From(g: Graph, fn: Name, p: seq<Name>) {
    p != [] && p[0] == fn && IsPath(g, p)
  }

  /** No call path from `root` enters a function twice. */
  ghost predicate NoRecursion(g: Graph, root: Name) {
    forall p :: From(g, root, p) ==> Simple(p)
  }

  /** No call path from `fn` needs more than `bytes`. */
  ghost predicate Bounds(g: Graph, fn: Name, bytes: nat) {
    forall p :: From(g, fn, p) ==> Bytes(g, p) <= bytes
  }

  ghost predicate MemoBounds(g: Graph, memo: Memo) {
    forall fn <- memo :: Bounds(g, fn, memo[fn].bytes)
  }

  function Elements(p: seq<Name>): set<Name> {
    set x | x in p
  }

  lemma Extend(g: Graph, root: Name, stack: seq<Name>, fn: Name)
    requires From(g, root, stack) && fn in g.frame && fn in g.Callees(stack[|stack| - 1])
    ensures From(g, root, stack + [fn])
  {
  }

  /** A function on the stack is never called again when there is no recursion. */
  lemma NotOnStack(g: Graph, root: Name, stack: seq<Name>, fn: Name)
    requires NoRecursion(g, root) && From(g, root, stack + [fn])
    ensures fn !in stack
  {
    var p := stack + [fn];
    assert Simple(p);
    forall i | 0 <= i < |stack|
      ensures stack[i] != fn
    {
      assert p[i] != p[|stack|];
    }
  }

  /** Bounding every callee bounds the caller. */
  lemma BoundCaller(g: Graph, fn: Name, best: nat)
    requires fn in g.frame
    requires forall c <- g.Callees(fn) :: c in g.frame ==> Bounds(g, c, best)
    ensures Bounds(g, fn, g.frame[fn] + best)
  {
    forall p | From(g, fn, p)
      ensures Bytes(g, p) <= g.frame[fn] + best
    {
      if |p| > 1 {
        assert p[1] in g.Callees(p[0]);
        assert From(g, p[1], p[1..]);
      }
    }
  }

  lemma {:induction false} WalkBounds(g: Graph, memo: Memo, root: Name, stack: seq<Name>, fn: Name)
    requires NoRecursion(g, root) && From(g, root, stack + [fn])
    requires MemoOk(g, memo, Elements(stack)) && MemoBounds(g, memo)
    ensures var w := Walk(g, memo, Elements(stack), fn);
            MemoBounds(g, w.memo) && Bounds(g, fn, w.depth.bytes)
    decreases g.frame.Keys - Elements(stack), 0
  {
    hide MemoOk, From, Bounds, NoRecursion;
    var onPath := Elements(stack);
    assert fn in g.frame by { InFrame(g, root, stack, fn); }
    NotOnStack(g, root, stack, fn);
    if fn !in memo {
      var deeper := stack + [fn];
      assert Elements(deeper) == onPath + {fn};
      assert fn in g.frame.Keys - onPath && fn !in g.frame.Keys - Elements(deeper);
      MemoOkAt(g, memo, onPath, fn);
      EachBounds(g, memo, root, deeper, g.Callees(fn), NOTHING, []);
      var w := Each(g, memo, onPath + {fn}, g.Callees(fn), NOTHING);
      BoundCaller(g, fn, w.depth.bytes);
    }
  }

  lemma InFrame(g: Graph, root: Name, stack: seq<Name>, fn: Name)
    requires From(g, root, stack + [fn])
    ensures fn in g.frame
  {
    assert (stack + [fn])[|stack|] == fn;
  }

  lemma MemoOkAt(g: Graph, memo: Memo, onPath: set<Name>, fn: Name)
    requires MemoOk(g, memo, onPath) && fn !in memo
    ensures MemoOk(g, memo, onPath + {fn})
  {
  }

  /** `done` are the callees already visited, `todo` the rest. */
  lemma {:induction false} EachBounds(g: Graph, memo: Memo, root: Name, stack: seq<Name>,
                                      todo: seq<Name>, best: Depth, done: seq<Name>)
    requires NoRecursion(g, root) && From(g, root, stack) && stack != []
    requires done + todo == g.Callees(stack[|stack| - 1])
    requires MemoOk(g, memo, Elements(stack)) && MemoBounds(g, memo)
    requires forall c <- done :: c in g.frame ==> Bounds(g, c, best.bytes)
    ensures var w := Each(g, memo, Elements(stack), todo, best);
            && MemoBounds(g, w.memo)
            && (forall c <- done + todo :: c in g.frame ==> Bounds(g, c, w.depth.bytes))
    decreases g.frame.Keys - Elements(stack), 1 + |todo|
  {
    hide MemoOk, From, Bounds, NoRecursion, MemoBounds;
    if todo == [] {
      assert done + todo == done;
    } else {
      var c := todo[0];
      var w := Walk(g, memo, Elements(stack), c);
      WalkOk(g, memo, Elements(stack), c);
      if c in g.frame {
        Extend(g, root, stack, c);
        WalkBounds(g, memo, root, stack, c);
      } else {
        NotAFunction(g, memo, Elements(stack), c);
      }
      var better := if w.depth.bytes > best.bytes then w.depth else best;
      forall x | x in done + [c] && x in g.frame
        ensures Bounds(g, x, better.bytes)
      {
        BoundsUp(g, x, if x in done then best.bytes else w.depth.bytes, better.bytes);
      }
      assert done + [c] + todo[1..] == done + todo;
      EachBounds(g, w.memo, root, stack, todo[1..], better, done + [c]);
    }
  }

  lemma NotAFunction(g: Graph, memo: Memo, onPath: set<Name>, fn: Name)
    requires MemoOk(g, memo, onPath) && fn !in g.frame
    ensures Walk(g, memo, onPath, fn) == Walked(NOTHING, memo)
  {
  }

  lemma BoundsUp(g: Graph, fn: Name, low: nat, high: nat)
    requires Bounds(g, fn, low) && low <= high
    ensures Bounds(g, fn, high)
  {
  }

  /** Without recursion below the root the figure is the maximum over every call path. */
  lemma Maximal(g: Graph, root: Name)
    requires root in g.frame && NoRecursion(g, root)
    ensures Bounds(g, root, Deepest(g, root).bytes)
  {
    assert [] + [root] == [root];
    assert From(g, root, [root]);
    assert Elements([]) == {};
    WalkBounds(g, map[], root, [], root);
  }

  // ----- with recursion

  function Repeat(p: seq<Name>, n: nat): seq<Name> {
    if n == 0 then [] else p + Repeat(p, n - 1)
  }

  lemma {:induction false} BytesAppend(g: Graph, p: seq<Name>, q: seq<Name>)
    requires (forall fn <- p :: fn in g.frame) && (forall fn <- q :: fn in g.frame)
    ensures Bytes(g, p + q) == Bytes(g, p) + Bytes(g, q)
  {
    if p == [] {
      assert p + q == q;
    } else {
      assert (p + q)[1..] == p[1..] + q;
      BytesAppend(g, p[1..], q);
    }
  }

  lemma Joined(g: Graph, p: seq<Name>, q: seq<Name>)
    requires p != [] && q != [] && IsPath(g, p) && IsPath(g, q) && q[0] in g.Callees(p[|p| - 1])
    ensures IsPath(g, p + q)
  {
  }

  /** A loop of at least a byte, taken `n` times, is a path of at least `n` bytes. */
  lemma {:induction false} Pump(g: Graph, loop: seq<Name>, n: nat)
    requires loop != [] && IsPath(g, loop) && loop[0] in g.Callees(loop[|loop| - 1])
    requires Bytes(g, loop) > 0
    ensures IsPath(g, Repeat(loop, n)) && Bytes(g, Repeat(loop, n)) >= n
    ensures n > 0 ==> Repeat(loop, n) != [] && Repeat(loop, n)[0] == loop[0]
  {
    if n > 0 {
      Pump(g, loop, n - 1);
      BytesAppend(g, loop, Repeat(loop, n - 1));
      if n > 1 {
        Joined(g, loop, Repeat(loop, n - 1));
      } else {
        assert Repeat(loop, n - 1) == [];
        assert loop + [] == loop;
      }
    }
  }

  /** What the path `p` spends between two visits to a function. */
  function LoopBytes(g: Graph, p: seq<Name>, i: nat, j: nat): nat
    requires IsPath(g, p) && i < j < |p|
  {
    Bytes(g, p[i..j])
  }

  /** A path from the root with a loop that costs anything can be stretched past any figure. */
  lemma Unbounded(g: Graph, root: Name, p: seq<Name>, i: nat, j: nat, bytes: nat)
    requires From(g, root, p) && i < j < |p| && p[i] == p[j] && LoopBytes(g, p, i, j) > 0
    ensures !Bounds(g, root, bytes)
  {
    var loop := p[i..j];
    var round := Repeat(loop, bytes + 1);
    assert loop[|loop| - 1] == p[j - 1];
    Pump(g, loop, bytes + 1);
    var long := p[..i] + round;
    if i > 0 {
      Joined(g, p[..i], round);
    } else {
      assert long == round;
    }
    BytesAppend(g, p[..i], round);
    assert From(g, root, long);
  }

  /** Every loop below the root costs something. */
  ghost predicate CostlyLoops(g: Graph, root: Name) {
    forall p, i, j :: From(g, root, p) && 0 <= i < j < |p| && p[i] == p[j] ==> LoopBytes(g, p, i, j) > 0
  }

  /** No loop below the root costs anything. */
  ghost predicate FreeLoops(g: Graph, root: Name) {
    forall p, i, j :: From(g, root, p) && 0 <= i < j < |p| && p[i] == p[j] ==> LoopBytes(g, p, i, j) == 0
  }

  ghost predicate BoundsSimple(g: Graph, root: Name, bytes: nat) {
    forall p :: From(g, root, p) && Simple(p) ==> Bytes(g, p) <= bytes
  }

  /** Where loops cost nothing they can be cut out of a path. */
  lemma {:induction false} CutLoops(g: Graph, root: Name, p: seq<Name>) returns (q: seq<Name>)
    requires FreeLoops(g, root) && From(g, root, p)
    ensures From(g, root, q) && Simple(q) && Bytes(g, q) == Bytes(g, p)
    decreases |p|
  {
    hide FreeLoops;
    q := p;
    if !Simple(p) {
      var i, j :| 0 <= i < j < |p| && p[i] == p[j];
      var shorter := p[..i] + p[j..];
      CutOne(g, root, p, i, j);
      q := CutLoops(g, root, shorter);
    }
  }

  lemma SubPath(g: Graph, p: seq<Name>, i: nat, j: nat)
    requires IsPath(g, p) && i <= j <= |p|
    ensures IsPath(g, p[i..j])
  {
  }

  lemma CutOne(g: Graph, root: Name, p: seq<Name>, i: nat, j: nat)
    requires FreeLoops(g, root) && From(g, root, p) && i < j < |p| && p[i] == p[j]
    ensures From(g, root, p[..i] + p[j..]) && Bytes(g, p[..i] + p[j..]) == Bytes(g, p)
  {
    assert LoopBytes(g, p, i, j) == 0;
    hide FreeLoops, Bytes;
    CutPath(g, p, i, j);
    CutBytes(g, p, i, j);
  }

  lemma CutPath(g: Graph, p: seq<Name>, i: nat, j: nat)
    requires IsPath(g, p) && i < j < |p| && p[i] == p[j]
    ensures IsPath(g, p[..i] + p[j..]) && (p[..i] + p[j..])[0] == p[0]
  {
    SubPath(g, p, 0, i);
    SubPath(g, p, j, |p|);
    var head, tail := p[0..i], p[j..|p|];
    assert p[..i] == head && p[j..] == tail;
    if i > 0 {
      assert p[i] in g.Callees(p[i - 1]);
      hide IsPath;
      Joined(g, head, tail);
    } else {
      assert head + tail == tail;
    }
  }

  lemma CutBytes(g: Graph, p: seq<Name>, i: nat, j: nat)
    requires (forall fn <- p :: fn in g.frame) && i <= j <= |p|
    ensures Bytes(g, p) == Bytes(g, p[..i] + p[j..]) + Bytes(g, p[i..j])
  {
    hide Bytes;
    var a, b, c := p[..i], p[i..j], p[j..];
    BytesAppend(g, b, c);
    BytesAppend(g, a, b + c);
    BytesAppend(g, a, c);
    assert p == a + (b + c);
  }

  /** For every graph, a figure bounds the call paths if and only if loops cost nothing and it bounds the simple ones. */
  lemma BoundsIff(g: Graph, root: Name, bytes: nat)
    ensures Bounds(g, root, bytes) <==> FreeLoops(g, root) && BoundsSimple(g, root, bytes)
  {
    if Bounds(g, root, bytes) {
      forall p, i, j | From(g, root, p) && 0 <= i < j < |p| && p[i] == p[j]
        ensures LoopBytes(g, p, i, j) == 0
      {
        if LoopBytes(g, p, i, j) > 0 {
          Unbounded(g, root, p, i, j, bytes);
        }
      }
    }
    if FreeLoops(g, root) && BoundsSimple(g, root, bytes) {
      forall p | From(g, root, p)
        ensures Bytes(g, p) <= bytes
      {
        var q := CutLoops(g, root, p);
      }
    }
  }

  /**
   Where every loop below the root costs at least a byte, the figure bounds every call path
   if and only if there is no such loop. Functions without a frame are no matter.
   */
  lemma MaximalIff(g: Graph, root: Name)
    requires root in g.frame && CostlyLoops(g, root)
    ensures Bounds(g, root, Deepest(g, root).bytes) <==> NoRecursion(g, root)
  {
    if NoRecursion(g, root) {
      Maximal(g, root);
    } else {
      var p :| From(g, root, p) && !Simple(p);
      var i, j :| 0 <= i < j < |p| && p[i] == p[j];
      assert LoopBytes(g, p, i, j) > 0;
      Unbounded(g, root, p, i, j, Deepest(g, root).bytes);
    }
  }

  // ----- recursion through the root only

  /** The graph with one function taken out. */
  function Without(g: Graph, root: Name): Graph {
    g.(frame := map fn | fn in g.frame && fn != root :: g.frame[fn])
  }

  /** Below the root the walk is the walk of the graph without it. */
  lemma {:induction false} SameWalk(g: Graph, root: Name, memo: Memo, onPath: set<Name>, fn: Name)
    requires root !in memo && root !in onPath
    ensures Walk(g, memo, onPath + {root}, fn) == Walk(Without(g, root), memo, onPath, fn)
    ensures root !in Walk(g, memo, onPath + {root}, fn).memo
    decreases Without(g, root).frame.Keys - onPath, 0
  {
    var h := Without(g, root);
    if fn !in memo && fn in h.frame && fn !in onPath {
      assert fn in h.frame.Keys - onPath && fn !in h.frame.Keys - (onPath + {fn});
      assert onPath + {root} + {fn} == onPath + {fn} + {root};
      SameEach(g, root, memo, onPath + {fn}, g.Callees(fn), NOTHING);
    }
  }

  lemma {:induction false} SameEach(g: Graph, root: Name, memo: Memo, onPath: set<Name>, todo: seq<Name>, best: Depth)
    requires root !in memo && root !in onPath
    ensures Each(g, memo, onPath + {root}, todo, best) == Each(Without(g, root), memo, onPath, todo, best)
    ensures root !in Each(g, memo, onPath + {root}, todo, best).memo
    decreases Without(g, root).frame.Keys - onPath, 1 + |todo|
  {
    if todo != [] {
      SameWalk(g, root, memo, onPath, todo[0]);
      var w := Walk(g, memo, onPath + {root}, todo[0]);
      SameEach(g, root, w.memo, onPath, todo[1..], if w.depth.bytes > best.bytes then w.depth else best);
    }
  }

  /** Every loop below the root passes through it. */
  ghost predicate LoopsThroughRoot(g: Graph, root: Name) {
    forall p, i, j :: From(g, root, p) && 0 <= i < j < |p| && p[i] == p[j] ==> root in p[i..j]
  }

  /** What a path of the smaller graph is in the larger. */
  lemma Prefixed(g: Graph, root: Name, c: Name, q: seq<Name>)
    requires root in g.frame && c in g.Callees(root) && From(Without(g, root), c, q)
    ensures From(g, root, [root] + q) && root !in q && Bytes(Without(g, root), q) == Bytes(g, q)
  {
    SameBytes(g, root, q);
    var p := [root] + q;
    forall i | 0 < i < |p|
      ensures p[i] in g.Callees(p[i - 1])
    {
      if i > 1 {
        assert q[i - 1] in g.Callees(q[i - 2]);
      }
    }
  }

  lemma {:induction false} SameBytes(g: Graph, root: Name, q: seq<Name>)
    requires forall fn <- q :: fn in Without(g, root).frame
    ensures Bytes(Without(g, root), q) == Bytes(g, q)
  {
    if q != [] {
      SameBytes(g, root, q[1..]);
    }
  }

  lemma NoLoopAside(g: Graph, root: Name, p: seq<Name>, i: nat, j: nat)
    requires LoopsThroughRoot(g, root) && From(g, root, p) && i < j < |p| && root !in p[i..j]
    ensures p[i] != p[j]
  {
  }

  /** Without the root nothing below it recurses. */
  lemma StraightBelow(g: Graph, root: Name, c: Name)
    requires root in g.frame && LoopsThroughRoot(g, root) && c in g.Callees(root)
    ensures NoRecursion(Without(g, root), c)
  {
    forall q | From(Without(g, root), c, q)
      ensures Simple(q)
    {
      Prefixed(g, root, c, q);
      var p := [root] + q;
      forall i, j | 0 <= i < j < |q|
        ensures q[i] != q[j]
      {
        assert p[i + 1..j + 1] == q[i..j] && p[i + 1] == q[i] && p[j + 1] == q[j];
        NoLoopAside(g, root, p, i + 1, j + 1);
      }
    }
  }

  /** The best over the callees bounds every path from each of them. */
  lemma {:induction false} EachBelow(h: Graph, memo: Memo, todo: seq<Name>, best: Depth, done: seq<Name>)
    requires forall c <- done + todo :: NoRecursion(h, c)
    requires MemoOk(h, memo, {}) && MemoBounds(h, memo)
    requires forall c <- done :: c in h.frame ==> Bounds(h, c, best.bytes)
    ensures forall c <- done + todo :: c in h.frame ==> Bounds(h, c, Each(h, memo, {}, todo, best).depth.bytes)
    decreases |todo|
  {
    hide NoRecursion, MemoOk, MemoBounds, Bounds;
    if todo == [] {
      assert done + todo == done;
    } else {
      var c := todo[0];
      var w := Walk(h, memo, {}, c);
      assert c in done + todo;
      WalkOk(h, memo, {}, c);
      if c in h.frame {
        TopWalkBounds(h, memo, c);
      } else {
        NotAFunction(h, memo, {}, c);
      }
      var better := if w.depth.bytes > best.bytes then w.depth else best;
      forall x | x in done + [c] && x in h.frame
        ensures Bounds(h, x, better.bytes)
      {
        BoundsUp(h, x, if x in done then best.bytes else w.depth.bytes, better.bytes);
      }
      assert done + [c] + todo[1..] == done + todo;
      EachBelow(h, w.memo, todo[1..], better, done + [c]);
    }
  }

  lemma TopWalkBounds(h: Graph, memo: Memo, c: Name)
    requires c in h.frame && NoRecursion(h, c) && MemoOk(h, memo, {}) && MemoBounds(h, memo)
    ensures var w := Walk(h, memo, {}, c); MemoBounds(h, w.memo) && Bounds(h, c, w.depth.bytes)
  {
    assert [] + [c] == [c] && From(h, c, [c]) && Elements([]) == {};
    WalkBounds(h, memo, c, [], c);
  }

  /** A simple path from the root is the root and a path of the graph without it. */
  lemma SimpleTail(g: Graph, root: Name, p: seq<Name>)
    requires From(g, root, p) && Simple(p) && |p| > 1
    ensures p[1] in g.Callees(root) && From(Without(g, root), p[1], p[1..])
    ensures Bytes(g, p) == g.frame[root] + Bytes(Without(g, root), p[1..])
  {
    var q := p[1..];
    forall fn | fn in q
      ensures fn in Without(g, root).frame
    {
      var i :| 0 <= i < |q| && q[i] == fn;
      assert p[0] != p[i + 1];
    }
    SameBytes(g, root, q);
  }

  /**
   Where every loop below the root passes through the root, the figure bounds every simple
   path, and so every call path if and only if the loops cost nothing.
   */
  lemma RootLoopsMaximal(g: Graph, root: Name)
    requires root in g.frame && LoopsThroughRoot(g, root)
    ensures BoundsSimple(g, root, Deepest(g, root).bytes)
    ensures Bounds(g, root, Deepest(g, root).bytes) <==> FreeLoops(g, root)
  {
    var h, callees := Without(g, root), g.Callees(root);
    forall c | c in callees
      ensures NoRecursion(h, c)
    {
      StraightBelow(g, root, c);
    }
    assert [] + callees == callees;
    EachBelow(h, map[], callees, NOTHING, []);
    assert {} + {root} == {root};
    SameEach(g, root, map[], {}, callees, NOTHING);
    var best := Each(h, map[], {}, callees, NOTHING).depth.bytes;
    assert Deepest(g, root).bytes == g.frame[root] + best;
    hide Each, Walk, NoRecursion, LoopsThroughRoot;
    forall p | From(g, root, p) && Simple(p)
      ensures Bytes(g, p) <= g.frame[root] + best
    {
      if |p| > 1 {
        SimpleTail(g, root, p);
        assert Bounds(h, p[1], best);
      }
    }
    BoundsIff(g, root, g.frame[root] + best);
  }

  const KNOT := Graph(map[0 := 1, 1 := 1, 2 := 9, 3 := 5], map[0 := [1, 2], 1 := [2, 3], 2 := [1]])

  /** The walk below 1 while 0 is on the path. */
  lemma BelowOne(onPath: set<Name>)
    requires onPath == {0}
    ensures var w := Walk(KNOT, map[], onPath, 1);
            w.depth == Depth(10, [1, 2]) && 2 in w.memo && w.memo[2] == Depth(9, [2])
  {
    var s1 := onPath + {1};
    var s2 := s1 + {2};
    var s3 := s1 + {3};
    var m2 := map[2 := Depth(9, [2])];
    assert KNOT.Callees(2) == [1] && KNOT.Callees(3) == [] && KNOT.Callees(1) == [2, 3];
    assert Walk(KNOT, map[], s2, 1) == Walked(NOTHING, map[]);
    assert [1][1..] == [];
    assert Each(KNOT, map[], s2, [1], NOTHING) == Walked(NOTHING, map[]);
    assert [2] + [] == [2];
    assert Walk(KNOT, map[], s1, 2) == Walked(Depth(9, [2]), m2);
    var w3 := Walk(KNOT, m2, s1, 3);
    assert Each(KNOT, m2, s3, [], NOTHING) == Walked(NOTHING, m2);
    assert w3.depth.bytes == 5 && w3.memo[2] == m2[2];
    var d2 := Depth(9, [2]);
    assert [3][1..] == [];
    assert Each(KNOT, m2, s1, [3], d2) == Walked(d2, w3.memo);
    assert [2, 3][1..] == [3];
    assert Each(KNOT, map[], s1, [2, 3], NOTHING) == Each(KNOT, m2, s1, [3], d2);
  }

  /**
   With recursion even the simple paths can go deeper than the figure: the measurement of
   2 is remembered from a visit that had 1 on its path, so 0-2-1-3 is never added up.
   */
  lemma RecursionUnderReports()
    ensures Deepest(KNOT, 0).bytes == 11
    ensures From(KNOT, 0, [0, 2, 1, 3]) && Simple([0, 2, 1, 3]) && Bytes(KNOT, [0, 2, 1, 3]) == 16
  {
    var s0 := {} + {0};
    BelowOne(s0);
    var w := Walk(KNOT, map[], s0, 1);
    assert KNOT.Callees(0) == [1, 2] && [1, 2][1..] == [2];
    assert Each(KNOT, w.memo, s0, [2], w.depth).depth == w.depth;
    assert Each(KNOT, map[], s0, [1, 2], NOTHING) == Each(KNOT, w.memo, s0, [2], w.depth);
    KnotPath();
  }

  lemma KnotPath()
    ensures Bytes(KNOT, [0, 2, 1, 3]) == 16
  {
    assert [0, 2, 1, 3] == [0, 2] + [1, 3] && [0, 2] == [0] + [2] && [1, 3] == [1] + [3];
    BytesAppend(KNOT, [0, 2], [1, 3]);
    BytesAppend(KNOT, [0], [2]);
    BytesAppend(KNOT, [1], [3]);
  }

  const FREE_KNOT := Graph(map[0 := 1, 1 := 0, 2 := 0, 3 := 5, 4 := 9],
                           map[0 := [1, 4], 1 := [2, 3], 2 := [1], 4 := [2]])

  /** The walk below 1 while 0 is on the path. */
  lemma FreeBelowOne(onPath: set<Name>)
    requires onPath == {0}
    ensures var w := Walk(FREE_KNOT, map[], onPath, 1);
            w.depth == Depth(5, [1, 3]) && 2 in w.memo && w.memo[2] == Depth(0, [2]) && 4 !in w.memo
  {
    var s1 := onPath + {1};
    var s2 := s1 + {2};
    var s3 := s1 + {3};
    var d2 := Depth(0, [2]);
    var m2 := map[2 := d2];
    assert FREE_KNOT.Callees(2) == [1] && FREE_KNOT.Callees(3) == [] && FREE_KNOT.Callees(1) == [2, 3];
    assert [1][1..] == [] && [2, 3][1..] == [3] && [3][1..] == [] && [2] + [] == [2] && [3] + [] == [3];
    assert Walk(FREE_KNOT, map[], s2, 1) == Walked(NOTHING, map[]);
    assert Each(FREE_KNOT, map[], s2, [1], NOTHING) == Walked(NOTHING, map[]);
    assert Walk(FREE_KNOT, map[], s1, 2) == Walked(d2, m2);
    assert Each(FREE_KNOT, m2, s3, [], NOTHING) == Walked(NOTHING, m2);
    var w3 := Walk(FREE_KNOT, m2, s1, 3);
    assert w3 == Walked(Depth(5, [3]), m2[3 := Depth(5, [3])]);
    assert Each(FREE_KNOT, m2, s1, [3], NOTHING) == w3;
    assert Each(FREE_KNOT, map[], s1, [2, 3], NOTHING) == Each(FREE_KNOT, m2, s1, [3], NOTHING);
    assert [1] + [3] == [1, 3];
  }

  /** Loops that cost nothing can hide a deeper path just as well. */
  lemma FreeLoopsUnderReport()
    ensures Deepest(FREE_KNOT, 0).bytes == 10
    ensures From(FREE_KNOT, 0, [0, 4, 2, 1, 3]) && Simple([0, 4, 2, 1, 3]) && Bytes(FREE_KNOT, [0, 4, 2, 1, 3]) == 15
  {
    var s0 := {} + {0};
    FreeBelowOne(s0);
    var w := Walk(FREE_KNOT, map[], s0, 1);
    var s4 := s0 + {4};
    assert FREE_KNOT.Callees(0) == [1, 4] && [1, 4][1..] == [4] && FREE_KNOT.Callees(4) == [2] && [2][1..] == [] && [4][1..] == [];
    assert Walk(FREE_KNOT, w.memo, s4, 2) == Walked(w.memo[2], w.memo);
    assert Each(FREE_KNOT, w.memo, s4, [2], NOTHING) == Walked(NOTHING, w.memo);
    assert Walk(FREE_KNOT, w.memo, s0, 4).depth.bytes == 9;
    assert Each(FREE_KNOT, w.memo, s0, [4], w.depth).depth.bytes == 9;
    assert Each(FREE_KNOT, map[], s0, [1, 4], NOTHING) == Each(FREE_KNOT, w.memo, s0, [4], w.depth);
    FreeKnotPath();
  }

  lemma FreeKnotPath()
    ensures IsPath(FREE_KNOT, [0, 4, 2, 1, 3]) && Bytes(FREE_KNOT, [0, 4, 2, 1, 3]) == 15
  {
    hide Bytes;
    FiveBytes(FREE_KNOT, [0, 4, 2, 1, 3]);
  }

  lemma FiveBytes(g: Graph, p: seq<Name>)
    requires |p| == 5 && forall fn <- p :: fn in g.frame
    ensures Bytes(g, p) == g.frame[p[0]] + g.frame[p[1]] + g.frame[p[2]] + g.frame[p[3]] + g.frame[p[4]]
  {
    hide Bytes;
    BytesStep(g, p, 4);
    BytesStep(g, p, 3);
    BytesStep(g, p, 2);
    BytesStep(g, p, 1);
    BytesStep(g, p, 0);
    assert p[0..] == p && p[5..] == [];
  }

  lemma BytesStep(g: Graph, p: seq<Name>, i: nat)
    requires (forall fn <- p :: fn in g.frame) && i < |p|
    ensures Bytes(g, p[i..]) == g.frame[p[i]] + Bytes(g, p[i + 1..])
    ensures Bytes(g, []) == 0
  {
    assert p[i..][1..] == p[i + 1..];
  }
}
