/**
 Counting pools by vCenter. Everything the scheduler decides about vCenters comes down to how
 many pools of a set lie on a set of servers; this module has the counting facts, the exchange
 argument behind "the k best-filled servers are the best k servers", and the selection of a
 pool set with a given size and spread.
 */
module Combinations {
  import opened Types

  function OnServers(f: set<Pool>, w: set<string>): set<Pool> {
    set p | p in f && p.server in w
  }

  function ServersOf(f: set<Pool>): set<string> {
    set p | p in f :: p.server
  }

  function CountOn(f: set<Pool>, server: string): nat {
    |OnServers(f, {server})|
  }

  lemma OnServersSplit(f: set<Pool>, a: set<string>, b: set<string>)
    requires a !! b
    ensures |OnServers(f, a + b)| == |OnServers(f, a)| + |OnServers(f, b)|
  {
    assert OnServers(f, a + b) == OnServers(f, a) + OnServers(f, b);
    assert OnServers(f, a) !! OnServers(f, b);
  }

  lemma CardMonotone<T>(a: set<T>, b: set<T>)
    requires a <= b
    ensures |a| <= |b|
    ensures |a| == |b| ==> a == b
  {
    assert b == a + (b - a);
  }

  lemma CardUnion<T>(a: set<T>, b: set<T>)
    ensures |a + b| <= |a| + |b|
    ensures a !! b ==> |a + b| == |a| + |b|
  {
  }

  lemma ServersUnion(a: set<Pool>, b: set<Pool>)
    ensures ServersOf(a + b) == ServersOf(a) + ServersOf(b)
  {
  }

  lemma OnServersMonotone(f: set<Pool>, a: set<string>, b: set<string>)
    requires a <= b
    ensures |OnServers(f, a)| <= |OnServers(f, b)|
  {
    CardMonotone(OnServers(f, a), OnServers(f, b));
  }

  /** If each of the servers `u` holds at least `m` pools, together they hold at least |u| * m. */
  lemma {:induction false} ManyOnEach(f: set<Pool>, u: set<string>, m: nat)
    requires forall v :: v in u ==> CountOn(f, v) >= m
    ensures |OnServers(f, u)| >= |u| * m
  {
    if u != {} {
      var v :| v in u;
      ManyOnEach(f, u - {v}, m);
      OnServersSplit(f, u - {v}, {v});
      assert u == (u - {v}) + {v};
      OneMore(|u - {v}|, m);
    }
  }

  lemma OneMore(n: nat, m: nat)
    ensures (n + 1) * m == n * m + m
  {
  }

  lemma {:induction false} SubsetOfSize<T>(base: set<T>, s: set<T>, k: nat) returns (t: set<T>)
    requires base <= s && |base| <= k <= |s|
    ensures base <= t <= s && |t| == k
    decreases k - |base|
  {
    if |base| == k {
      t := base;
    } else {
      assert base != s;
      var x :| x in s && x !in base;
      CardMonotone(base + {x}, s);
      t := SubsetOfSize(base + {x}, s, k);
    }
  }

  lemma {:induction false} ServersOfCard(s: set<Pool>)
    ensures |ServersOf(s)| <= |s|
  {
    if s != {} {
      var p :| p in s;
      ServersOfCard(s - {p});
      assert ServersOf(s) <= ServersOf(s - {p}) + {p.server};
      CardMonotone(ServersOf(s), ServersOf(s - {p}) + {p.server});
    }
  }

  /** One pool for each of the servers `v`. */
  lemma {:induction false} Representatives(s: set<Pool>, v: set<string>) returns (t: set<Pool>)
    requires v <= ServersOf(s)
    ensures t <= s && |t| == |v| && ServersOf(t) == v
  {
    if v == {} {
      t := {};
    } else {
      var x :| x in v;
      var rest := Representatives(s, v - {x});
      var p :| p in s && p.server == x;
      assert x !in ServersOf(rest);
      assert p !in rest;
      t := rest + {p};
      assert p in t;
      assert ServersOf(t) == ServersOf(rest) + {x};
    }
  }

  // ---- Ranking servers by how many pools they hold -----------------------------------------

  /** `order` lists the servers of `f`, each once, with the best-filled ones first. */
  ghost predicate Ranking(f: set<Pool>, order: seq<string>) {
    && Distinct(order)
    && ToSet(order) == ServersOf(f)
    && forall i, j :: 0 <= i < j < |order| ==> CountOn(f, order[i]) >= CountOn(f, order[j])
  }

  lemma OnPrefix(f: set<Pool>, order: seq<string>, k: nat)
    requires Distinct(order) && k < |order|
    ensures |OnServers(f, ToSet(order[..k + 1]))|
         == |OnServers(f, ToSet(order[..k]))| + CountOn(f, order[k])
  {
    assert ToSet(order[..k + 1]) == ToSet(order[..k]) + {order[k]};
    OnServersSplit(f, ToSet(order[..k]), {order[k]});
  }

  /** No k servers hold more pools than the first k of a ranking. */
  lemma {:induction false} TopIsBest(f: set<Pool>, order: seq<string>, k: nat, w: set<string>)
    requires Ranking(f, order) && k <= |order| && |w| <= k
    ensures |OnServers(f, w)| <= |OnServers(f, ToSet(order[..k]))|
    decreases k
  {
    if k == 0 || w <= ToSet(order[..k]) {
      OnServersMonotone(f, w, ToSet(order[..k]));
    } else {
      var x :| x in w && x !in ToSet(order[..k]);
      TopIsBest(f, order, k - 1, w - {x});
      OnPrefix(f, order, k - 1);
      OnServersSplit(f, w - {x}, {x});
      assert w == (w - {x}) + {x};
      RankedBelow(f, order, k, x);
    }
  }

  lemma RankedBelow(f: set<Pool>, order: seq<string>, k: nat, x: string)
    requires Ranking(f, order) && 0 < k <= |order| && x !in ToSet(order[..k])
    ensures CountOn(f, x) <= CountOn(f, order[k - 1])
  {
    var top := order[..k];
    if x in ServersOf(f) {
      assert x in ToSet(order);
      var i :| 0 <= i < |order| && order[i] == x;
      assert i < k ==> x in top;
    } else {
      assert OnServers(f, {x}) == {};
    }
  }

  /** The same for any number of servers: past the end of the ranking there is nothing to add. */
  lemma TopIsBestOf(f: set<Pool>, order: seq<string>, k: nat, w: set<string>)
    requires Ranking(f, order) && |w| <= k
    ensures var n := if k < |order| then k else |order|;
            |OnServers(f, w)| <= |OnServers(f, ToSet(order[..n]))|
  {
    if k < |order| {
      TopIsBest(f, order, k, w);
    } else {
      assert order[..|order|] == order;
      assert OnServers(f, w) <= OnServers(f, ToSet(order));
      CardMonotone(OnServers(f, w), OnServers(f, ToSet(order)));
    }
  }

  /** Taking one server out of a ranking ranks the pools on the other servers. */
  lemma RankingWithout(f: set<Pool>, order: seq<string>, idx: nat)
    requires Ranking(f, order) && idx < |order|
    ensures Ranking(f - OnServers(f, {order[idx]}), order[..idx] + order[idx + 1..])
  {
    var v := order[idx];
    var g := f - OnServers(f, {v});
    var rest := order[..idx] + order[idx + 1..];
    assert forall i :: 0 <= i < |rest| ==> rest[i] == (if i < idx then order[i] else order[i + 1]);
    forall i | 0 <= i < |rest| ensures CountOn(g, rest[i]) == CountOn(f, rest[i]) {
      assert OnServers(g, {rest[i]}) == OnServers(f, {rest[i]});
    }
    WithoutOne(order, idx);
    assert ServersOf(g) == ServersOf(f) - {v} by {
      forall x | x in ServersOf(f) - {v} ensures x in ServersOf(g) {
        var p :| p in f && p.server == x;
        assert p in g;
      }
    }
  }

  lemma WithoutOne<T>(s: seq<T>, idx: nat)
    requires Distinct(s) && idx < |s|
    ensures Distinct(s[..idx] + s[idx + 1..])
    ensures ToSet(s[..idx] + s[idx + 1..]) == ToSet(s) - {s[idx]}
  {
    var rest := s[..idx] + s[idx + 1..];
    assert forall i :: 0 <= i < |rest| ==> rest[i] == (if i < idx then s[i] else s[i + 1]);
    forall x | x in ToSet(s) - {s[idx]} ensures x in ToSet(rest) {
      var i :| 0 <= i < |s| && s[i] == x;
      assert rest[if i < idx then i else i - 1] == x;
    }
  }

  // ---- Choosing a pool set with a given size and spread ------------------------------------

  /** `s` has exactly `size` pools on at least `low` and, when capped, at most `cap` servers. */
  ghost predicate Spread(s: set<Pool>, size: nat, low: int, cap: int) {
    && |s| == size
    && |ServersOf(s)| >= low
    && (cap > 0 ==> |ServersOf(s)| <= cap)
  }

  /** From servers `w` that together hold enough pools of `f`, a set with the wanted spread
      can be drawn: one pool from each of `low` servers, then any others. */
  lemma DrawSpread(f: set<Pool>, w: set<string>, size: nat, low: int, cap: int) returns (s: set<Pool>)
    requires w <= ServersOf(f)
    requires cap > 0 ==> |w| <= cap
    requires low <= size && low <= |w|
    requires |OnServers(f, w)| >= size
    ensures s <= OnServers(f, w) && Spread(s, size, low, cap)
  {
    var g := OnServers(f, w);
    assert ServersOf(g) == w;
    var need := if low > 0 then low else 0;
    var v := SubsetOfSize({}, w, need);
    var base := Representatives(g, v);
    s := SubsetOfSize(base, g, size);
    CardMonotone(v, ServersOf(s));
    CardMonotone(ServersOf(s), w);
  }
}
