/**
  The two order listings of the server: a user's own orders and, for an
  administrator, all orders; both newest first by placement time. The document
  store's query and sort are modelled by a filter and an insertion sort.
*/
module OrderListing {
  import opened OrderRules

  /** The stored orders with ids below `n`, in id order. */
  function InIdOrder(m: map<OrderId, Order>, n: nat): (r: seq<Order>)
    requires forall id :: 0 <= id < n ==> id in m
    ensures |r| == n
    ensures forall id :: 0 <= id < n ==> r[id] == m[id]
  {
    if n == 0 then [] else InIdOrder(m, n - 1) + [m[n - 1]]
  }

  /** The query on the owner field: the orders of `user`, each as often as in `s`. */
  function OwnedBy(s: seq<Order>, user: UserId): (r: seq<Order>)
    ensures forall o :: o in r <==> o in s && o.owner == user
    ensures forall o :: multiset(r)[o] == if o.owner == user then multiset(s)[o] else 0
  {
    if s == [] then []
    else
      assert s == [s[0]] + s[1..];
      if s[0].owner == user then [s[0]] + OwnedBy(s[1..], user) else OwnedBy(s[1..], user)
  }

  /** Sorted by placement time, newest first: no order was placed before the one after it. */
  predicate NewestFirst(s: seq<Order>) {
    forall i :: 0 < i < |s| ==> s[i - 1].placedAt >= s[i].placedAt
  }

  /** In a newest-first listing every order is at least as recent as every order after it. */
  lemma {:induction false} NewestFirstOrdered(s: seq<Order>)
    requires NewestFirst(s)
    ensures forall i, j :: 0 <= i < j < |s| ==> s[i].placedAt >= s[j].placedAt
    decreases |s|
  {
    if |s| > 1 {
      var t := s[1..];
      assert NewestFirst(t) by {
        forall i | 0 < i < |t| ensures t[i - 1].placedAt >= t[i].placedAt {
          assert t[i - 1] == s[i] && t[i] == s[i + 1];
        }
      }
      NewestFirstOrdered(t);
      forall i, j | 0 <= i < j < |s| ensures s[i].placedAt >= s[j].placedAt {
        assert s[j] == t[j - 1];
        if i == 0 {
          assert s[1] == t[0];
        } else {
          assert s[i] == t[i - 1];
        }
      }
    }
  }

  function InsertNewestFirst(o: Order, s: seq<Order>): (r: seq<Order>)
    requires NewestFirst(s)
    ensures NewestFirst(r)
    ensures multiset(r) == multiset(s) + multiset{o}
    ensures r[0] == o || (|s| > 0 && r[0] == s[0])
  {
    if s == [] || o.placedAt >= s[0].placedAt then [o] + s
    else
      var rest := InsertNewestFirst(o, s[1..]);
      assert s == [s[0]] + s[1..];
      [s[0]] + rest
  }

  /** The `sort({ placedAt: -1 })` of both listings: a newest-first permutation of its input. */
  function SortNewestFirst(s: seq<Order>): (r: seq<Order>)
    ensures NewestFirst(r)
    ensures multiset(r) == multiset(s)
  {
    if s == [] then []
    else
      assert s == [s[0]] + s[1..];
      InsertNewestFirst(s[0], SortNewestFirst(s[1..]))
  }

  /** The projection applied to every order of a listing, order kept. */
  function ProjectAll(s: seq<Order>, now: int): (r: seq<ClientOrder>)
    ensures |r| == |s|
    ensures forall i :: 0 <= i < |s| ==> r[i] == ToClientView(s[i], now)
  {
    if s == [] then [] else [ToClientView(s[0], now)] + ProjectAll(s[1..], now)
  }

  /** Records stored under their own ids are all different, so each occurs once in the id-order listing. */
  lemma {:induction false} InIdOrderOnce(m: map<OrderId, Order>, n: nat)
    requires forall id :: 0 <= id < n ==> id in m && m[id].id == id
    ensures forall o :: multiset(InIdOrder(m, n))[o] <= 1
  {
    if n > 0 {
      InIdOrderOnce(m, n - 1);
      var prefix := InIdOrder(m, n - 1);
      assert InIdOrder(m, n) == prefix + [m[n - 1]];
      assert m[n - 1] !in prefix by {
        forall k | 0 <= k < |prefix| ensures prefix[k] != m[n - 1] {
          assert prefix[k].id == k;
        }
      }
    }
  }

  /** A sequence in which no value occurs twice has no two equal positions. */
  lemma {:induction false} OnceMeansDistinct(s: seq<Order>)
    requires forall o :: multiset(s)[o] <= 1
    ensures forall i, j :: 0 <= i < j < |s| ==> s[i] != s[j]
  {
    if s != [] {
      assert s == [s[0]] + s[1..];
      forall o ensures multiset(s[1..])[o] <= 1 {
        assert multiset(s)[o] == multiset{s[0]}[o] + multiset(s[1..])[o];
      }
      OnceMeansDistinct(s[1..]);
      assert multiset(s)[s[0]] == 1 + multiset(s[1..])[s[0]];
      assert multiset(s[1..])[s[0]] == 0;
      forall i, j | 0 <= i < j < |s| ensures s[i] != s[j] {
        if i == 0 {
          assert s[j] in s[1..];
        } else {
          assert s[i] == s[1..][i - 1] && s[j] == s[1..][j - 1];
        }
      }
    }
  }

  /** Two sequences with the same multiset have the same members. */
  lemma SameMembers(a: seq<Order>, b: seq<Order>)
    requires multiset(a) == multiset(b)
    ensures forall o :: o in a <==> o in b
  {
    forall o ensures o in a <==> o in b {
      assert o in a <==> o in multiset(a);
      assert o in b <==> o in multiset(b);
    }
  }

  /**
    The user listing before projection: newest first, exactly the orders of
    `user` from `stored`, none twice when none is stored twice.
  */
  lemma UserListingFacts(stored: seq<Order>, user: UserId)
    requires forall o :: multiset(stored)[o] <= 1
    ensures var sorted := SortNewestFirst(OwnedBy(stored, user));
      && NewestFirst(sorted)
      && (forall o :: o in sorted <==> o in stored && o.owner == user)
      && (forall i, j :: 0 <= i < j < |sorted| ==> sorted[i] != sorted[j])
  {
    var mine := OwnedBy(stored, user);
    var sorted := SortNewestFirst(mine);
    SameMembers(sorted, mine);
    forall o ensures multiset(sorted)[o] <= 1 {
      assert multiset(mine)[o] <= multiset(stored)[o];
    }
    OnceMeansDistinct(sorted);
  }
}
