/**
 * The recency tracker (`InMemoryHistoryManager`): a doubly linked list of
 * nodes, oldest first, plus a map from task id to the node holding it.
 *
 * The first half states what the tracker keeps as a sequence of tasks; the
 * class below keeps the same sequence in linked nodes and every method is
 * proved against those functions.
 */
module History {
  import opened Wrappers
  import opened Model

  // ---------------------------------------------------------------------
  // The trail as a sequence

  /** The trail without the entries whose id is in `ids`, order kept. */
  function Forget(h: seq<Task>, ids: set<int>): seq<Task>
  {
    if h == [] then []
    else (if h[0].id in ids then [] else [h[0]]) + Forget(h[1..], ids)
  }

  /** `add(task)`: any entry with the task's id taken out, the task appended. */
  function Record(h: seq<Task>, t: Task): seq<Task>
  {
    Forget(h, {t.id}) + [t]
  }

  /** At most one entry per id. */
  predicate UniqueIds(h: seq<Task>)
  {
    forall i, j :: 0 <= i < j < |h| ==> h[i].id != h[j].id
  }

  function Ids(h: seq<Task>): set<int>
  {
    set i | 0 <= i < |h| :: h[i].id
  }

  /** Forgetting distributes over concatenation: relative order is kept. */
  lemma {:induction false} ForgetAppend(a: seq<Task>, b: seq<Task>, ids: set<int>)
    ensures Forget(a + b, ids) == Forget(a, ids) + Forget(b, ids)
  {
    if a == [] {
      assert a + b == b;
    } else {
      assert (a + b)[1..] == a[1..] + b;
      ForgetAppend(a[1..], b, ids);
    }
  }

  /** What is left: exactly the entries whose id is not forgotten. */
  lemma {:induction false} ForgetMembers(h: seq<Task>, ids: set<int>)
    ensures forall t :: t in Forget(h, ids) <==> t in h && t.id !in ids
  {
    if h != [] {
      ForgetMembers(h[1..], ids);
      assert h == [h[0]] + h[1..];
    }
  }

  /** Forgetting ids that are not on the trail changes nothing. */
  lemma {:induction false} ForgetNothing(h: seq<Task>, ids: set<int>)
    requires forall i :: 0 <= i < |h| ==> h[i].id !in ids
    ensures Forget(h, ids) == h
  {
    if h != [] {
      ForgetNothing(h[1..], ids);
    }
  }

  /** Forgetting twice is forgetting the union. */
  lemma {:induction false} ForgetTwice(h: seq<Task>, a: set<int>, b: set<int>)
    ensures Forget(Forget(h, a), b) == Forget(h, a + b)
  {
    if h != [] {
      ForgetTwice(h[1..], a, b);
      ForgetAppend(if h[0].id in a then [] else [h[0]], Forget(h[1..], a), b);
    }
  }

  /** Ids of a concatenation. */
  lemma IdsAppend(a: seq<Task>, b: seq<Task>)
    ensures Ids(a + b) == Ids(a) + Ids(b)
  {
    var c := a + b;
    forall x | x in Ids(c) ensures x in Ids(a) + Ids(b) {
      var i :| 0 <= i < |c| && c[i].id == x;
      if i < |a| {
        assert a[i] == c[i];
      } else {
        assert b[i - |a|] == c[i];
      }
    }
    forall x | x in Ids(a) + Ids(b) ensures x in Ids(c) {
      if x in Ids(a) {
        var i :| 0 <= i < |a| && a[i].id == x;
        assert c[i] == a[i];
      } else {
        var i :| 0 <= i < |b| && b[i].id == x;
        assert c[|a| + i] == b[i];
      }
    }
  }

  /** Two trails with unique and disjoint ids concatenate to one with unique ids. */
  lemma UniqueAppend(a: seq<Task>, b: seq<Task>)
    requires UniqueIds(a) && UniqueIds(b) && Ids(a) !! Ids(b)
    ensures UniqueIds(a + b)
  {
    var c := a + b;
    forall i, j | 0 <= i < j < |c| ensures c[i].id != c[j].id {
      if j < |a| {
        assert c[i] == a[i] && c[j] == a[j];
      } else if i >= |a| {
        assert c[i] == b[i - |a|] && c[j] == b[j - |a|];
      } else {
        assert c[i] == a[i] && c[j] == b[j - |a|];
        assert a[i].id in Ids(a) && b[j - |a|].id in Ids(b);
      }
    }
  }

  /** `s` with position `k` taken out. */
  function Without<T>(s: seq<T>, k: nat): (r: seq<T>)
    requires k < |s|
    ensures |r| == |s| - 1
    decreases k
  {
    if k == 0 then s[1..] else [s[0]] + Without(s[1..], k - 1)
  }

  lemma {:induction false} WithoutIsSplice<T>(s: seq<T>, k: nat)
    requires k < |s|
    ensures Without(s, k) == s[..k] + s[k + 1..]
    decreases k
  {
    if k > 0 {
      WithoutIsSplice(s[1..], k - 1);
      assert s[..k] == [s[0]] + s[1..][..k - 1];
      assert s[1..][k..] == s[k + 1..];
    }
  }

  lemma WithoutAt<T>(s: seq<T>, k: nat, i: nat)
    requires k < |s| && i < |s| - 1
    ensures Without(s, k)[i] == if i < k then s[i] else s[i + 1]
  {
    WithoutIsSplice(s, k);
  }

  /** On a trail with unique ids, forgetting the id at `k` removes position `k` only. */
  lemma {:induction false} ForgetAt(h: seq<Task>, k: nat)
    requires k < |h| && forall i :: 0 <= i < |h| && i != k ==> h[i].id != h[k].id
    ensures Forget(h, {h[k].id}) == Without(h, k)
    decreases k
  {
    var id := h[k].id;
    if k == 0 {
      assert forall i :: 0 <= i < |h[1..]| ==> h[1..][i].id == h[i + 1].id;
      ForgetNothing(h[1..], {id});
    } else {
      assert h[1..][k - 1] == h[k];
      ForgetAt(h[1..], k - 1);
    }
  }

  lemma {:induction false} ForgetKeepsUnique(h: seq<Task>, ids: set<int>)
    requires UniqueIds(h)
    ensures UniqueIds(Forget(h, ids))
    ensures Ids(Forget(h, ids)) == Ids(h) - ids
  {
    if h != [] {
      var t := h[1..];
      var p := if h[0].id in ids then [] else [h[0]];
      ForgetKeepsUnique(t, ids);
      assert h == [h[0]] + t;
      IdsAppend([h[0]], t);
      IdsAppend(p, Forget(t, ids));
      assert Ids([h[0]]) == {h[0].id};
      assert Ids(p) == if h[0].id in ids then {} else {h[0].id};
      assert h[0].id !in Ids(t) by {
        forall i | 0 <= i < |t| ensures t[i].id != h[0].id {
          assert t[i] == h[i + 1];
        }
      }
      UniqueAppend(p, Forget(t, ids));
    }
  }

  /**
   * After `add(t)` the trail has unique ids, ends with `t`, holds exactly the
   * earlier ids plus `t`'s, and `t`'s id appears once.
   */
  lemma RecordSpec(h: seq<Task>, t: Task)
    requires UniqueIds(h)
    ensures var r := Record(h, t);
      && UniqueIds(r)
      && r[|r| - 1] == t
      && Ids(r) == Ids(h) + {t.id}
      && (forall i :: 0 <= i < |r| - 1 ==> r[i].id != t.id)
  {
    ForgetKeepsUnique(h, {t.id});
    var f := Forget(h, {t.id});
    var r := f + [t];
    forall i | 0 <= i < |f| ensures f[i].id != t.id {
      assert f[i].id in Ids(f);
    }
    assert forall i :: 0 <= i < |f| ==> r[i] == f[i];
    forall x | x in Ids(r) ensures x in Ids(h) + {t.id} {
      var i :| 0 <= i < |r| && r[i].id == x;
      if i < |f| { assert f[i].id in Ids(f); }
    }
    forall x | x in Ids(h) + {t.id} ensures x in Ids(r) {
      if x != t.id {
        assert x in Ids(f);
        var i :| 0 <= i < |f| && f[i].id == x;
        assert r[i].id == x;
      } else {
        assert r[|r| - 1].id == x;
      }
    }
  }

  /**
   * The trail is unbounded: with unique ids its length is the number of
   * distinct ids on it.
   */
  lemma {:induction false} UniqueLength(h: seq<Task>)
    requires UniqueIds(h)
    ensures |h| == |Ids(h)|
  {
    if h != [] {
      var t := h[|h| - 1];
      var init := h[..|h| - 1];
      UniqueLength(init);
      assert Ids(h) == Ids(init) + {t.id} by {
        forall x | x in Ids(h) ensures x in Ids(init) + {t.id} {
          var i :| 0 <= i < |h| && h[i].id == x;
          if i < |h| - 1 { assert init[i].id == x; }
        }
        forall x | x in Ids(init) ensures x in Ids(h) {
          var i :| 0 <= i < |init| && init[i].id == x;
          assert h[i].id == x;
        }
      }
      assert t.id !in Ids(init) by {
        forall i | 0 <= i < |init| ensures init[i].id != t.id {
          assert init[i] == h[i];
        }
      }
    }
  }

  /** add 1, add 2, remove 1, add 3, add 1 leaves the trail 2, 3, 1. */
  lemma OrderAfterMixedOperations(t1: Task, t2: Task, t3: Task)
    requires t1.id == 1 && t2.id == 2 && t3.id == 3
    ensures Record(Record(Forget(Record(Record([], t1), t2), {1}), t3), t1) == [t2, t3, t1]
  {
    assert Record([], t1) == [t1];
    ForgetAppend([t1], [], {2});
    assert Record([t1], t2) == [t1, t2];
    ForgetAppend([t1], [t2], {1});
    assert Forget([t1, t2], {1}) == [t2];
    ForgetAppend([t2], [], {3});
    assert Record([t2], t3) == [t2, t3];
    ForgetAppend([t2], [t3], {1});
    assert Record([t2, t3], t1) == [t2, t3, t1];
  }

  // ---------------------------------------------------------------------
  // The linked structure

  class Node {
    const task: Task
    var prev: Node?
    var next: Node?

    constructor (task: Task, prev: Node?, next: Node?)
      ensures this.task == task && this.prev == prev && this.next == next
    {
      this.task := task;
      this.prev := prev;
      this.next := next;
    }
  }

  /** No node occurs twice. */
  ghost predicate Distinct(s: seq<Node>)
    decreases |s|
  {
    s == [] || (s[0] !in s[1..] && Distinct(s[1..]))
  }

  lemma {:induction false} DistinctAt(s: seq<Node>, i: nat, j: nat)
    requires Distinct(s) && i < |s| && j < |s| && i != j
    ensures s[i] != s[j]
  {
    if i == 0 {
      assert s[j] == s[1..][j - 1];
    } else if j == 0 {
      assert s[i] == s[1..][i - 1];
    } else {
      DistinctAt(s[1..], i - 1, j - 1);
    }
  }

  /** Every element of `s` without position `k` is an element of `s`. */
  lemma {:induction false} WithoutMembers<T>(s: seq<T>, k: nat)
    requires k < |s|
    ensures forall x :: x in Without(s, k) ==> x in s
    decreases k
  {
    if k > 0 {
      WithoutMembers(s[1..], k - 1);
    }
  }

  lemma {:induction false} DistinctWithout(s: seq<Node>, k: nat)
    requires Distinct(s) && k < |s|
    ensures Distinct(Without(s, k))
    decreases k
  {
    if k > 0 {
      DistinctWithout(s[1..], k - 1);
      WithoutMembers(s[1..], k - 1);
      var w := [s[0]] + Without(s[1..], k - 1);
      assert w[1..] == Without(s[1..], k - 1);
    }
  }

  lemma {:induction false} DistinctAppend(s: seq<Node>, x: Node)
    requires Distinct(s) && x !in s
    ensures Distinct(s + [x])
  {
    if s != [] {
      DistinctAppend(s[1..], x);
      assert (s + [x])[1..] == s[1..] + [x];
    }
  }

  /** Distinct nodes carrying the trail, one task per node. */
  ghost predicate Chain(nodes: seq<Node>, items: seq<Task>)
  {
    && |items| == |nodes|
    && Distinct(nodes)
    && (forall i :: 0 <= i < |nodes| ==> nodes[i].task == items[i])
  }

  /** The map holds exactly the ids on the trail, each to the node carrying it. */
  ghost predicate Indexed(m: map<int, Node>, nodes: seq<Node>, items: seq<Task>)
  {
    && |items| == |nodes|
    && (forall i :: 0 <= i < |nodes| ==> items[i].id in m && m[items[i].id] == nodes[i])
    && (forall id :: id in m ==> m[id] in nodes && m[id].task.id == id)
  }

  lemma ChainRemove(nodes: seq<Node>, items: seq<Task>, k: nat, rest: seq<Node>, trail: seq<Task>)
    requires Chain(nodes, items) && Spliced(rest, nodes, k) && Spliced(trail, items, k)
    ensures Chain(rest, trail)
  {
    SplicedIsWithout(rest, nodes, k);
    DistinctWithout(nodes, k);
  }

  lemma IndexedRemove(m: map<int, Node>, nodes: seq<Node>, items: seq<Task>, k: nat, rest: seq<Node>, trail: seq<Task>)
    requires Chain(nodes, items) && Indexed(m, nodes, items)
    requires Spliced(rest, nodes, k) && Spliced(trail, items, k)
    ensures Indexed(m - {items[k].id}, rest, trail)
  {
    var m' := m - {items[k].id};
    forall i | 0 <= i < |rest| ensures trail[i].id in m' && m'[trail[i].id] == rest[i] {
      var i' := if i < k then i else i + 1;
      assert rest[i] == nodes[i'] && trail[i] == items[i'];
      DistinctAt(nodes, i', k);
    }
    forall id | id in m' ensures m'[id] in rest {
      var j :| 0 <= j < |nodes| && nodes[j] == m[id];
      assert nodes[j].task.id == items[j].id;
      assert j != k;
      if j < k {
        assert rest[j] == nodes[j];
      } else {
        assert rest[j - 1] == nodes[j];
      }
    }
  }

  lemma ChainAppend(nodes: seq<Node>, items: seq<Task>, node: Node)
    requires Chain(nodes, items) && node !in nodes
    ensures Chain(nodes + [node], items + [node.task])
  {
    DistinctAppend(nodes, node);
  }

  lemma IndexedAppend(m: map<int, Node>, nodes: seq<Node>, items: seq<Task>, node: Node)
    requires Indexed(m, nodes, items) && node.task.id !in m
    ensures Indexed(m[node.task.id := node], nodes + [node], items + [node.task])
  {
  }

  /** The id at position `k` occurs nowhere else. */
  lemma IndexedIdAt(m: map<int, Node>, nodes: seq<Node>, items: seq<Task>, k: nat)
    requires Chain(nodes, items) && Indexed(m, nodes, items) && k < |nodes|
    ensures forall i :: 0 <= i < |items| && i != k ==> items[i].id != items[k].id
  {
    forall i | 0 <= i < |items| && i != k ensures items[i].id != items[k].id {
      DistinctAt(nodes, i, k);
    }
  }

  /** Distinct nodes indexed by id carry distinct ids. */
  lemma IndexedUnique(m: map<int, Node>, nodes: seq<Node>, items: seq<Task>)
    requires Chain(nodes, items) && Indexed(m, nodes, items)
    ensures UniqueIds(items)
  {
    forall i, j | 0 <= i < j < |items| ensures items[i].id != items[j].id {
      DistinctAt(nodes, i, j);
    }
  }

  /** `rest` is `s` with position `k` left out, stated position by position. */
  predicate Spliced<T(==)>(rest: seq<T>, s: seq<T>, k: nat)
  {
    && k < |s|
    && |rest| == |s| - 1
    && (forall i :: 0 <= i < |rest| ==> rest[i] == s[if i < k then i else i + 1])
  }

  lemma SplicedIsWithout<T>(rest: seq<T>, s: seq<T>, k: nat)
    requires Spliced(rest, s, k)
    ensures rest == Without(s, k)
  {
    forall i | 0 <= i < |rest| ensures rest[i] == Without(s, k)[i] {
      WithoutAt(s, k, i);
    }
  }

  lemma SpliceOut<T>(s: seq<T>, k: nat) returns (rest: seq<T>)
    requires k < |s|
    ensures Spliced(rest, s, k)
  {
    rest := Without(s, k);
    forall i | 0 <= i < |rest| ensures rest[i] == s[if i < k then i else i + 1] {
      WithoutAt(s, k, i);
    }
  }

  /**
   * Taking the node at position `k`, which the map holds for `id`, out of
   * the chain: the remaining nodes carry the trail with `id` forgotten, and
   * the map without `id` indexes them.
   */
  lemma Detach(m: map<int, Node>, id: int, n: seq<Node>, items: seq<Task>, k: nat, rest: seq<Node>, R: set<Node>)
    returns (trail: seq<Task>)
    requires Chain(n, items) && Indexed(m, n, items) && Spliced(rest, n, k) && id in m && n[k] == m[id]
    requires forall i :: 0 <= i < |n| ==> n[i] in R
    ensures Chain(rest, trail) && Indexed(m - {id}, rest, trail) && trail == Forget(items, {id})
    ensures forall i :: 0 <= i < |rest| ==> rest[i] in R
  {
    assert items[k].id == id;
    IndexedIdAt(m, n, items, k);
    ForgetAt(items, k);
    trail := Without(items, k);
    forall i | 0 <= i < |trail| ensures trail[i] == items[if i < k then i else i + 1] {
      WithoutAt(items, k, i);
    }
    IndexedRemove(m, n, items, k, rest, trail);
    ChainRemove(n, items, k, rest, trail);
  }

  /** `prev` and `next` of neighbouring nodes point at each other. */
  ghost predicate Links(n: seq<Node>)
    reads n`prev, n`next
    decreases |n|
  {
    |n| <= 1 || (n[0].next == n[1] && n[1].prev == n[0] && Links(n[1..]))
  }

  lemma {:induction false} LinksAt(n: seq<Node>, i: nat)
    requires Links(n) && i + 1 < |n|
    ensures n[i].next == n[i + 1] && n[i + 1].prev == n[i]
  {
    if i > 0 {
      LinksAt(n[1..], i - 1);
      assert n[1..][i - 1] == n[i] && n[1..][i] == n[i + 1];
    }
  }

  /** A linked run stays linked when none of its inner links changed. */
  twostate lemma {:induction false} LinksKept(s: seq<Node>)
    requires old(Links(s))
    requires forall i :: 0 <= i < |s| - 1 ==> s[i].next == old(s[i].next)
    requires forall i :: 0 < i < |s| ==> s[i].prev == old(s[i].prev)
    ensures Links(s)
  {
    if |s| > 1 {
      var t := s[1..];
      forall i | 0 <= i < |t| - 1 ensures t[i].next == old(t[i].next) {
        assert t[i] == s[i + 1];
      }
      forall i | 0 < i < |t| ensures t[i].prev == old(t[i].prev) {
        assert t[i] == s[i + 1];
      }
      LinksKept(t);
    }
  }

  lemma {:induction false} LinksPrefix(s: seq<Node>, hi: nat)
    requires hi <= |s| && Links(s)
    ensures Links(s[..hi])
  {
    if 1 < hi {
      LinksPrefix(s[1..], hi - 1);
      assert s[1..][..hi - 1] == s[..hi][1..];
    }
  }

  /** Any slice of a linked run is linked. */
  lemma {:induction false} LinksSlice(s: seq<Node>, lo: nat, hi: nat)
    requires lo <= hi <= |s| && Links(s)
    ensures Links(s[lo..hi])
    decreases lo
  {
    if lo == 0 {
      LinksPrefix(s, hi);
      assert s[..hi] == s[lo..hi];
    } else {
      LinksSlice(s[1..], lo - 1, hi - 1);
      assert s[1..][lo - 1..hi - 1] == s[lo..hi];
    }
  }

  /** Two linked runs joined at a linked seam form one linked run. */
  lemma {:induction false} LinksConcat(a: seq<Node>, b: seq<Node>)
    requires Links(a) && Links(b)
    requires |a| > 0 && |b| > 0 ==> a[|a| - 1].next == b[0] && b[0].prev == a[|a| - 1]
    ensures Links(a + b)
  {
    if a == [] {
      assert a + b == b;
    } else if |a| == 1 {
      assert (a + b)[1..] == b;
    } else {
      LinksConcat(a[1..], b);
      assert (a + b)[1..] == a[1..] + b;
    }
  }

  /**
   * Joining the neighbours of position `k` and leaving every other link as
   * it was links the remaining nodes.
   */
  twostate lemma RelinkAfterRemoval(n: seq<Node>, new k: int, new rest: seq<Node>)
    requires 0 <= k && Spliced(rest, n, k) && old(Links(n[..k])) && old(Links(n[k + 1..]))
    requires forall i :: 0 <= i < |n| && i != k - 1 && i != k ==> n[i].next == old(n[i].next)
    requires forall i :: 0 <= i < |n| && i != k + 1 && i != k ==> n[i].prev == old(n[i].prev)
    requires 0 < k < |n| - 1 ==> n[k - 1].next == n[k + 1] && n[k + 1].prev == n[k - 1]
    ensures Links(rest)
  {
    LinksKeptBefore(n, k);
    LinksKeptAfter(n, k);
    SplicedIsWithout(rest, n, k);
    WithoutIsSplice(n, k);
    LinksConcat(n[..k], n[k + 1..]);
  }

  /** The run before position `k` keeps its links when they are untouched. */
  twostate lemma LinksKeptBefore(n: seq<Node>, new k: int)
    requires 0 <= k <= |n| && old(Links(n[..k]))
    requires forall i :: 0 <= i < k - 1 ==> n[i].next == old(n[i].next)
    requires forall i :: 0 < i < k ==> n[i].prev == old(n[i].prev)
    ensures Links(n[..k])
  {
    var a := n[..k];
    forall i | 0 <= i < |a| - 1 ensures a[i].next == old(a[i].next) {
      assert a[i] == n[i];
    }
    forall i | 0 < i < |a| ensures a[i].prev == old(a[i].prev) {
      assert a[i] == n[i];
    }
    LinksKept(a);
  }

  /** The run after position `k` keeps its links when they are untouched. */
  twostate lemma LinksKeptAfter(n: seq<Node>, new k: int)
    requires 0 <= k < |n| && old(Links(n[k + 1..]))
    requires forall i :: k + 1 <= i < |n| - 1 ==> n[i].next == old(n[i].next)
    requires forall i :: k + 1 < i < |n| ==> n[i].prev == old(n[i].prev)
    ensures Links(n[k + 1..])
  {
    var b := n[k + 1..];
    forall i | 0 <= i < |b| - 1 ensures b[i].next == old(b[i].next) {
      assert b[i] == n[k + 1 + i];
    }
    forall i | 0 < i < |b| ensures b[i].prev == old(b[i].prev) {
      assert b[i] == n[k + 1 + i];
    }
    LinksKept(b);
  }

  /**
   * What a linked run of distinct nodes says around position `k`: the runs
   * before and after it are linked, its neighbours point at it, they differ
   * from every other node, and the ends of the run without it.
   */
  lemma RemovalPlan(n: seq<Node>, k: nat, rest: seq<Node>)
    requires Distinct(n) && Links(n) && Spliced(rest, n, k)
    ensures Links(n[..k]) && Links(n[k + 1..])
    ensures k > 0 ==> n[k - 1].next == n[k] && n[k].prev == n[k - 1]
    ensures k < |n| - 1 ==> n[k].next == n[k + 1] && n[k + 1].prev == n[k]
    ensures forall i :: 0 <= i < |n| && i != k ==> n[i] != n[k]
    ensures k > 0 ==> forall i :: 0 <= i < |n| && i != k - 1 ==> n[i] != n[k - 1]
    ensures k < |n| - 1 ==> forall i :: 0 <= i < |n| && i != k + 1 ==> n[i] != n[k + 1]
    ensures |rest| > 0 ==> rest[0] == (if k == 0 then n[1] else n[0])
    ensures |rest| > 0 ==> rest[|rest| - 1] == (if k == |n| - 1 then n[|n| - 2] else n[|n| - 1])
  {
    LinksAround(n, k);
    DistinctFrom(n, k);
    if k > 0 {
      DistinctFrom(n, k - 1);
    }
    if k < |n| - 1 {
      DistinctFrom(n, k + 1);
    }
    SplicedEnds(rest, n, k);
  }

  /** The ends of a sequence with position `k` left out. */
  lemma SplicedEnds(rest: seq<Node>, n: seq<Node>, k: nat)
    requires Spliced(rest, n, k)
    ensures |rest| > 0 ==> rest[0] == (if k == 0 then n[1] else n[0])
    ensures |rest| > 0 ==> rest[|rest| - 1] == (if k == |n| - 1 then n[|n| - 2] else n[|n| - 1])
  {
    if |rest| > 0 {
      assert rest[0] == n[if 0 < k then 0 else 1];
      var j := |rest| - 1;
      if k == |n| - 1 {
        assert j < k && rest[j] == n[j];
      } else {
        assert k <= j && rest[j] == n[j + 1];
      }
    }
  }

  lemma LinksAround(n: seq<Node>, k: nat)
    requires Links(n) && k < |n|
    ensures Links(n[..k]) && Links(n[k + 1..])
    ensures k > 0 ==> n[k - 1].next == n[k] && n[k].prev == n[k - 1]
    ensures k < |n| - 1 ==> n[k].next == n[k + 1] && n[k + 1].prev == n[k]
  {
    LinksPrefix(n, k);
    LinksSlice(n, k + 1, |n|);
    assert n[k + 1..|n|] == n[k + 1..];
    if k > 0 {
      LinksAt(n, k - 1);
    }
    if k < |n| - 1 {
      LinksAt(n, k);
    }
  }

  /** In a run of distinct nodes, the node at `j` is no other position's. */
  lemma DistinctFrom(n: seq<Node>, j: nat)
    requires Distinct(n) && j < |n|
    ensures forall i :: 0 <= i < |n| && i != j ==> n[i] != n[j]
  {
    forall i | 0 <= i < |n| && i != j ensures n[i] != n[j] {
      DistinctAt(n, i, j);
    }
  }

  /** Appending `x` after a linked run whose last node now points at it. */
  twostate lemma LinksAppend(n: seq<Node>, new x: Node)
    requires old(Links(n))
    requires forall i :: 0 <= i < |n| - 1 ==> n[i].next == old(n[i].next)
    requires forall i :: 0 < i < |n| ==> n[i].prev == old(n[i].prev)
    requires |n| > 0 ==> n[|n| - 1].next == x && x.prev == n[|n| - 1]
    ensures Links(n + [x])
  {
    LinksKept(n);
    LinksConcat(n, [x]);
  }

  class InMemoryHistoryManager {
    var historyMap: map<int, Node>
    var head: Node?
    var tail: Node?

    /** The nodes from `head` to `tail`. */
    ghost var nodes: seq<Node>
    /** The tasks on those nodes, oldest first: the trail itself. */
    ghost var Items: seq<Task>
    /** Every node the list has used. */
    ghost var Repr: set<Node>

    /**
     * The links, for `ns` carrying `items`: `head` and `tail` are both null
     * exactly when the list is empty and otherwise its ends; `head.prev` and
     * `tail.next` are null; `prev` and `next` agree with the order of `ns`.
     */
    ghost predicate Shape(ns: seq<Node>, items: seq<Task>)
      reads this`head, this`tail, this`Repr, Repr`prev, Repr`next
    {
      && (forall i :: 0 <= i < |ns| ==> ns[i] in Repr)
      && Chain(ns, items)
      && (|ns| == 0 <==> head == null)
      && (|ns| == 0 <==> tail == null)
      && (|ns| > 0 ==> head == ns[0] && tail == ns[|ns| - 1])
      && (|ns| > 0 ==> ns[0].prev == null && ns[|ns| - 1].next == null)
      && Links(ns)
    }

    /** The list from `head` to `tail` is `nodes`, carrying the trail. */
    ghost predicate Linked()
      reads this`nodes, this`Items, this`head, this`tail, this`Repr, Repr`prev, Repr`next
    {
      Shape(nodes, Items)
    }

    ghost predicate Valid()
      reads this, Repr`prev, Repr`next
    {
      Linked() && Indexed(historyMap, nodes, Items)
    }

    /** A valid history holds each id at most once. */
    lemma UniqueTrail()
      requires Valid()
      ensures UniqueIds(Items)
    {
      IndexedUnique(historyMap, nodes, Items);
    }

    constructor ()
      ensures Valid() && fresh(Repr)
      ensures Items == []
    {
      historyMap := map[];
      head := null;
      tail := null;
      nodes := [];
      Items := [];
      Repr := {};
    }

    /** `add`: null is ignored; otherwise the id is detached and the task appended. */
    method Add(task: Option<Task>)
      requires Valid()
      modifies this, Repr`prev, Repr`next
      ensures Valid() && fresh(Repr - old(Repr))
      ensures Items == if task.None? then old(Items) else Record(old(Items), task.value)
    {
      if task.None? {
        return;
      }
      Remove(task.value.id);
      LinkLast(task.value);
    }

    /** `remove`: the entry for `id` taken out of list and map; absent ids ignored. */
    method Remove(id: int)
      requires Valid()
      modifies this, Repr`prev, Repr`next
      ensures Valid() && Repr == old(Repr) && id !in historyMap
      ensures Items == Forget(old(Items), {id})
    {
      if id !in historyMap {
        forall i | 0 <= i < |Items| ensures Items[i].id !in {id} {
          assert Items[i].id in historyMap;
        }
        ForgetNothing(Items, {id});
        return;
      }
      ghost var n := nodes;
      ghost var items := Items;
      ghost var k :| 0 <= k < |n| && n[k] == historyMap[id];
      var node := historyMap[id];
      ghost var rest := SpliceOut(n, k);
      ghost var trail := Detach(historyMap, id, n, items, k, rest, Repr);
      historyMap := historyMap - {id};
      Unlink(node, k, rest, trail);
    }

    /** The unlinking in `remove`, with the trail it leaves. */
    method Unlink(node: Node, ghost k: nat, ghost rest: seq<Node>, ghost trail: seq<Task>)
      requires Linked() && Spliced(rest, nodes, k) && nodes[k] == node
      requires Chain(rest, trail) && forall i :: 0 <= i < |rest| ==> rest[i] in Repr
      modifies this`head, this`tail, this`nodes, this`Items, nodes`prev, nodes`next
      ensures Linked() && nodes == rest && Items == trail
    {
      RemoveNode(node, nodes, k, rest);
      nodes, Items := rest, trail;
    }

    /** `getHistory`: a walk from head to tail, oldest first; nothing changes. */
    method GetHistory() returns (tasks: seq<Task>)
      requires Valid()
      ensures tasks == Items
    {
      tasks := [];
      var current := head;
      ghost var i := 0;
      while current != null
        invariant 0 <= i <= |nodes|
        invariant tasks == Items[..i]
        invariant current == if i == |nodes| then null else nodes[i]
        decreases |nodes| - i
      {
        if i + 1 < |nodes| {
          LinksAt(nodes, i);
        }
        tasks := tasks + [current.task];
        assert Items[..i + 1] == Items[..i] + [Items[i]];
        current := current.next;
        i := i + 1;
      }
      assert Items[..i] == Items;
    }

    /** `linkLast`: a new node after the tail, registered in the map. */
    method LinkLast(task: Task)
      requires Linked() && Indexed(historyMap, nodes, Items)
      requires task.id !in historyMap
      modifies this, Repr`prev, Repr`next
      ensures Valid() && fresh(Repr - old(Repr))
      ensures Items == old(Items) + [task]
    {
      var newNode := new Node(task, tail, null);
      ChainAppend(nodes, Items, newNode);
      IndexedAppend(historyMap, nodes, Items, newNode);
      historyMap := historyMap[task.id := newNode];
      Push(newNode);
    }

    /** The list part of `linkLast`: `x` linked after the tail, with the trail it extends. */
    method Push(x: Node)
      requires Linked() && x !in Repr && x.prev == tail && x.next == null
      requires Chain(nodes + [x], Items + [x.task])
      modifies this`head, this`tail, this`nodes, this`Items, this`Repr, nodes`next
      ensures Linked() && nodes == old(nodes) + [x] && Items == old(Items) + [x.task]
      ensures Repr == old(Repr) + {x}
    {
      Attach(x, nodes);
      nodes, Items, Repr := nodes + [x], Items + [x.task], Repr + {x};
    }

    /**
     * The relinking in `linkLast`: `x` becomes the new tail, after the old
     * tail or as the only node. Only the old tail's `next` and the two ends
     * change.
     */
    method Attach(x: Node, ghost n: seq<Node>)
      requires Distinct(n) && Links(n) && x !in n && x.prev == tail && x.next == null
      requires |n| == 0 ==> head == null && tail == null
      requires |n| > 0 ==> head == n[0] && tail == n[|n| - 1] && n[0].prev == null
      modifies this`head, this`tail, n`next
      ensures Links(n + [x])
      ensures head == (n + [x])[0] && tail == x && head.prev == null && x.next == null
    {
      if tail == null {
        head := x;
      } else {
        tail.next := x;
      }
      tail := x;
      forall i | 0 <= i < |n| - 1 ensures n[i].next == old(n[i].next) {
        DistinctAt(n, i, |n| - 1);
      }
      LinksAppend(n, x);
    }

    /**
     * `removeNode` on the node at position `k`: the neighbours are joined
     * around it (or `head` / `tail` moved past it), then its own links are
     * cleared. The list of the other nodes is linked, with its ends in
     * `head` and `tail`; only the three nodes involved and the two ends
     * change.
     */
    method RemoveNode(node: Node, ghost n: seq<Node>, ghost k: nat, ghost rest: seq<Node>)
      requires Distinct(n) && Links(n) && Spliced(rest, n, k) && n[k] == node
      requires head == n[0] && tail == n[|n| - 1] && n[0].prev == null && n[|n| - 1].next == null
      modifies this`head, this`tail, n`prev, n`next
      ensures Links(rest)
      ensures |rest| == 0 ==> head == null && tail == null
      ensures |rest| > 0 ==> head == rest[0] && tail == rest[|rest| - 1]
      ensures |rest| > 0 ==> head.prev == null && tail.next == null
    {
      RemovalPlan(n, k, rest);
      if node.prev != null {
        node.prev.next := node.next;
      } else {
        head := node.next;
      }
      if node.next != null {
        node.next.prev := node.prev;
      } else {
        tail := node.prev;
      }
      node.prev := null;
      node.next := null;
      RelinkAfterRemoval(n, k, rest);
    }
  }
}
