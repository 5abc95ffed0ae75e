/** The linked chain of network interfaces in kernel memory, which the statistics service counts
    once and then sums again and again. Address 0 ends the chain; an address that cannot be read
    ends the service. */
module InterfaceChain {
  import opened Options
  import opened Words

  /** The counters of one interface, as 32-bit words, and the address of the next one. */
  datatype Ifnet = Ifnet(ipackets: u32, opackets: u32, ierrors: u32, oerrors: u32, collisions: u32, next: int)

  type Chain = map<int, Ifnet>

  /** The exact total of a counter. */
  function SumOf(nodes: seq<Ifnet>, counter: Ifnet -> u32): nat {
    if nodes == [] then 0 else SumOf(nodes[..|nodes| - 1], counter) + counter(nodes[|nodes| - 1])
  }

  /** The first n nodes of the walk from off, fewer if the chain ends before; None if an address
      on the way cannot be read. */
  function Walk(chain: Chain, off: int, n: nat): (r: Option<seq<Ifnet>>)
    ensures r.Some? ==> |r.value| <= n
    decreases n
  {
    if off == 0 || n == 0 then Some([])
    else if off !in chain then None
    else match Walk(chain, chain[off].next, n - 1)
      case None => None
      case Some(rest) => Some([chain[off]] + rest)
  }

  /** The walk from off comes to its end after exactly k nodes: at address 0, or at an address
      that cannot be read. */
  predicate StopsAfter(chain: Chain, off: int, k: nat)
    decreases k
  {
    if k == 0 then off == 0 || off !in chain
    else off != 0 && off in chain && StopsAfter(chain, chain[off].next, k - 1)
  }

  /** Where it ends. */
  function StopsAt(chain: Chain, off: int, k: nat): int
    requires StopsAfter(chain, off, k)
    decreases k
  {
    if k == 0 then off else StopsAt(chain, chain[off].next, k - 1)
  }

  /** The chain has exactly k nodes and ends properly. */
  predicate HasLength(chain: Chain, off: int, k: nat) {
    StopsAfter(chain, off, k) && StopsAt(chain, off, k) == 0
  }

  lemma StopsOnce(chain: Chain, off: int, j: nat, k: nat)
    requires StopsAfter(chain, off, j) && StopsAfter(chain, off, k)
    ensures j == k
    decreases j
  {
  }

  /** The walk from a ends after k nodes or fewer. */
  ghost predicate StopsWithin(chain: Chain, a: int, k: nat) {
    exists j: nat :: j <= k && StopsAfter(chain, a, j)
  }

  /** The nodes passed are distinct: each has its own distance to the end. */
  lemma {:induction false} PassedNodes(chain: Chain, off: int, k: nat) returns (passed: set<int>)
    requires StopsAfter(chain, off, k)
    ensures |passed| == k && passed <= chain.Keys
    ensures forall a :: a in passed ==> StopsWithin(chain, a, k)
    decreases k
  {
    if k == 0 {
      passed := {};
    } else {
      passed := PassedNodes(chain, chain[off].next, k - 1);
      if off in passed {
        var j: nat :| j <= k - 1 && StopsAfter(chain, off, j);
        StopsOnce(chain, off, j, k);
      }
      passed := passed + {off};
    }
  }

  ghost predicate Stops(chain: Chain, off: int) {
    exists k: nat :: StopsAfter(chain, off, k)
  }

  /** The walk ends at all exactly when it ends within as many steps as there are nodes: setup
      returns exactly for chains that do not run into a cycle. */
  lemma EndsWithinNodes(chain: Chain, off: int)
    ensures Stops(chain, off) <==> StopsWithin(chain, off, |chain|)
  {
    if Stops(chain, off) {
      var k: nat :| StopsAfter(chain, off, k);
      var passed := PassedNodes(chain, off, k);
      SubsetSize(passed, chain.Keys);
      assert |chain.Keys| == |chain|;
    }
  }

  /** After i steps from off the walk stands at node a. */
  predicate PassesAt(chain: Chain, off: int, i: nat, a: int)
    ensures PassesAt(chain, off, i, a) ==> a in chain
    decreases i
  {
    off != 0 && off in chain && if i == 0 then a == off else PassesAt(chain, chain[off].next, i - 1, a)
  }

  /** It passes the same node twice. */
  ghost predicate Cycles(chain: Chain, off: int) {
    exists i: nat, j: nat, a: int :: i < j && PassesAt(chain, off, i, a) && PassesAt(chain, off, j, a)
  }

  /** Its distance to the end goes down by one a step. */
  lemma {:induction false} DistanceLeft(chain: Chain, off: int, k: nat, i: nat, a: int)
    requires StopsAfter(chain, off, k) && PassesAt(chain, off, i, a)
    ensures i < k && StopsAfter(chain, a, k - i)
    decreases i
  {
    if i == 0 {
    } else {
      DistanceLeft(chain, chain[off].next, k - 1, i - 1, a);
    }
  }

  /** Without an end it stands at some node after every number of steps. */
  lemma {:induction false} PassesOn(chain: Chain, off: int, i: nat) returns (a: int)
    requires !Stops(chain, off)
    ensures PassesAt(chain, off, i, a) && a in chain
    decreases i
  {
    assert !StopsAfter(chain, off, 0);
    if i == 0 {
      a := off;
    } else {
      forall k: nat
        ensures !StopsAfter(chain, chain[off].next, k)
      {
        assert !StopsAfter(chain, off, k + 1);
      }
      a := PassesOn(chain, chain[off].next, i - 1);
    }
  }

  ghost predicate PassedWithin(chain: Chain, off: int, n: nat, a: int) {
    exists i: nat :: i < n && PassesAt(chain, off, i, a)
  }

  /** The nodes at which a walk without an end stands in its first n steps: if none comes twice, there
      are n of them. */
  lemma {:induction false} NodesPassed(chain: Chain, off: int, n: nat) returns (passed: set<int>)
    requires !Stops(chain, off) && !Cycles(chain, off)
    ensures passed <= chain.Keys && |passed| == n
    ensures forall a :: a in passed ==> PassedWithin(chain, off, n, a)
  {
    if n == 0 {
      passed := {};
    } else {
      passed := NodesPassed(chain, off, n - 1);
      var a := PassesOn(chain, off, n - 1);
      assert PassesAt(chain, off, n - 1, a);
      assert forall b :: PassedWithin(chain, off, n - 1, b) ==> PassedWithin(chain, off, n, b);
      passed := passed + {a};
    }
  }

  /** The walk of setup does not end exactly when it runs into a cycle. */
  lemma EndlessMeansCycle(chain: Chain, off: int)
    ensures !Stops(chain, off) <==> Cycles(chain, off)
  {
    assert |chain.Keys| == |chain|;
    if Cycles(chain, off) && Stops(chain, off) {
      var i: nat, j: nat, a: int :| i < j && PassesAt(chain, off, i, a) && PassesAt(chain, off, j, a);
      var k: nat :| StopsAfter(chain, off, k);
      DistanceLeft(chain, off, k, i, a);
      DistanceLeft(chain, off, k, j, a);
      StopsOnce(chain, a, k - i, k - j);
    }
    if !Stops(chain, off) && !Cycles(chain, off) {
      var passed := NodesPassed(chain, off, |chain| + 1);
      SubsetSize(passed, chain.Keys);
    }
  }

  /** The nodes of a walk are those it passes, in order: node i is read where it stands after i steps. */
  lemma {:induction false} WalkNodes(chain: Chain, off: int, n: nat, i: nat) returns (a: int)
    requires Walk(chain, off, n).Some? && i < |Walk(chain, off, n).value|
    ensures PassesAt(chain, off, i, a) && a in chain && Walk(chain, off, n).value[i] == chain[a]
    decreases i
  {
    if i == 0 {
      a := off;
    } else {
      a := WalkNodes(chain, chain[off].next, n - 1, i - 1);
    }
  }

  /** And it leaves none out that comes within its bound. */
  lemma {:induction false} WalkTakesAll(chain: Chain, off: int, n: nat, i: nat, a: int)
    requires Walk(chain, off, n).Some? && i < n && PassesAt(chain, off, i, a)
    ensures i < |Walk(chain, off, n).value| && Walk(chain, off, n).value[i] == chain[a]
    decreases i
  {
    if i == 0 {
    } else {
      WalkTakesAll(chain, chain[off].next, n - 1, i - 1, a);
    }
  }

  lemma SubsetSize(a: set<int>, b: set<int>)
    requires a <= b
    ensures |a| <= |b|
  {
    assert b == a + (b - a);
  }

  /** A chain that ends properly is walked in full, by its own length or by any greater one. */
  lemma {:induction false} WholeChain(chain: Chain, off: int, k: nat, n: nat)
    requires HasLength(chain, off, k) && k <= n
    ensures Walk(chain, off, n) == Walk(chain, off, k) && Walk(chain, off, k).Some?
    ensures |Walk(chain, off, k).value| == k
    decreases k
  {
    if k == 0 {
    } else {
      WholeChain(chain, chain[off].next, k - 1, n - 1);
    }
  }
}
