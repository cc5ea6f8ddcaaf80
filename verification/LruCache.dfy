/**
  The cached address lookup (src/core/GeoIPResolver.cpp, lookup): a list of
  entries in recency order and an index of list nodes, over a database that is a
  pure function of the address.
*/
module LruCache {
  import opened Bytes

  datatype GeoIPInfo = GeoIPInfo(country: Text, asn: nat, organization: Text)

  const NO_INFO := GeoIPInfo([], 0, [])

  // ----- recency

  function Without(list: seq<Text>, x: Text): seq<Text> {
    if list == [] then [] else if list[0] == x then Without(list[1..], x) else [list[0]] + Without(list[1..], x)
  }

  /** The distinct non-empty addresses of a history, most recently used first. */
  ghost function MostRecent(history: seq<Text>): seq<Text> {
    if history == [] then []
    else
      var ip, earlier := history[|history| - 1], MostRecent(history[..|history| - 1]);
      if ip == [] then earlier else [ip] + Without(earlier, ip)
  }

  function Take(list: seq<Text>, n: nat): seq<Text> {
    if |list| <= n then list else list[..n]
  }

  ghost predicate Distinct(list: seq<Text>) {
    forall i, j :: 0 <= i < j < |list| ==> list[i] != list[j]
  }

  lemma {:induction false} WithoutKeepsOthers(list: seq<Text>, x: Text)
    requires Distinct(list)
    ensures Distinct(Without(list, x)) && x !in Without(list, x)
    ensures forall y :: y in Without(list, x) <==> y in list && y != x
  {
    if list != [] {
      var rest := Without(list[1..], x);
      WithoutKeepsOthers(list[1..], x);
      assert forall y :: y in list <==> y == list[0] || y in list[1..];
      assert list[0] !in list[1..];
    }
  }

  lemma {:induction false} WithoutAbsent(list: seq<Text>, x: Text)
    requires x !in list
    ensures Without(list, x) == list
  {
    if list != [] {
      WithoutAbsent(list[1..], x);
    }
  }

  lemma {:induction false} WithoutAt(list: seq<Text>, at: nat)
    requires Distinct(list) && at < |list|
    ensures Without(list, list[at]) == list[..at] + list[at + 1..]
  {
    if at == 0 {
      assert list[0] !in list[1..];
      WithoutAbsent(list[1..], list[0]);
    } else {
      WithoutAt(list[1..], at - 1);
      assert list[1..][..at - 1] == list[1..at] && list[1..][at..] == list[at + 1..];
      assert [list[0]] + list[1..at] == list[..at];
    }
  }

  lemma {:induction false} MostRecentIsDistinct(history: seq<Text>)
    ensures Distinct(MostRecent(history)) && [] !in MostRecent(history)
  {
    if history != [] {
      var earlier := MostRecent(history[..|history| - 1]);
      MostRecentIsDistinct(history[..|history| - 1]);
      WithoutKeepsOthers(earlier, history[|history| - 1]);
    }
  }

  /** Forgetting the tail of the list first does not change the head of the next one. */
  lemma {:induction false} TakeThenWithout(list: seq<Text>, x: Text, n: nat)
    requires Distinct(list)
    ensures Take(Without(Take(list, n + 1), x), n) == Take(Without(list, x), n)
  {
    if list != [] && |list| > n + 1 {
      var rest := list[1..];
      assert Take(list, n + 1) == [list[0]] + Take(rest, n);
      assert Take(list, n + 1)[1..] == Take(rest, n);
      if list[0] == x {
        assert x !in rest && x !in Take(rest, n);
        WithoutAbsent(rest, x);
        WithoutAbsent(Take(rest, n), x);
      } else if n > 0 {
        TakeThenWithout(rest, x, n - 1);
        TakeCons(list[0], Without(Take(rest, n), x), n);
        TakeCons(list[0], Without(rest, x), n);
      }
    }
  }

  lemma TakeCons(x: Text, list: seq<Text>, n: nat)
    requires n > 0
    ensures Take([x] + list, n) == [x] + Take(list, n - 1)
  {
  }

  /** Using an address moves it to the front of the bounded list, as of the unbounded one. */
  lemma UseKeepsRecency(list: seq<Text>, x: Text, capacity: nat)
    requires capacity >= 1 && Distinct(list)
    ensures Take([x] + Without(Take(list, capacity), x), capacity) == Take([x] + Without(list, x), capacity)
  {
    TakeThenWithout(list, x, capacity - 1);
    TakeCons(x, Without(Take(list, capacity), x), capacity);
    TakeCons(x, Without(list, x), capacity);
  }

  // ----- what most recent means

  /** `i` is the last use of `x` in the history. */
  ghost predicate LastUse(history: seq<Text>, x: Text, i: nat) {
    i < |history| && history[i] == x && x !in history[i + 1..]
  }

  /** `last` gives the last use of each listed address, latest first. */
  ghost predicate Dated(history: seq<Text>, list: seq<Text>, last: seq<nat>) {
    && |last| == |list|
    && (forall k :: 0 <= k < |last| ==> LastUse(history, list[k], last[k]))
    && forall j, k :: 0 <= j < k < |last| ==> last[j] > last[k]
  }

  lemma DatedThenUsed(history: seq<Text>, list: seq<Text>, last: seq<nat>, ip: Text)
    requires Dated(history, list, last) && ip !in list
    ensures Dated(history + [ip], list, last)
  {
    forall k | 0 <= k < |last| ensures LastUse(history + [ip], list[k], last[k]) {
      assert (history + [ip])[last[k] + 1..] == history[last[k] + 1..] + [ip];
    }
  }

  lemma DatedInFront(history: seq<Text>, list: seq<Text>, last: seq<nat>, ip: Text)
    requires Dated(history, list, last) && ip !in list
    ensures Dated(history + [ip], [ip] + list, [|history|] + last)
  {
    DatedThenUsed(history, list, last, ip);
    assert (history + [ip])[|history| + 1..] == [];
    assert LastUse(history + [ip], ip, |history|);
    var dates := [|history|] + last;
    assert forall k :: 0 < k < |dates| ==> dates[k] == last[k - 1] && ([ip] + list)[k] == list[k - 1];
    assert forall k :: 0 <= k < |last| ==> LastUse(history, list[k], last[k]) && last[k] < |history|;
  }

  lemma DatedWithout(history: seq<Text>, list: seq<Text>, last: seq<nat>, ip: Text) returns (left: seq<nat>)
    requires Dated(history, list, last) && Distinct(list)
    ensures Dated(history, Without(list, ip), left)
  {
    if at: nat :| at < |list| && list[at] == ip {
      WithoutAt(list, at);
      left := last[..at] + last[at + 1..];
    } else {
      WithoutAbsent(list, ip);
      left := last;
    }
  }

  /**
    Each listed address was used, and everything after it in the list was last
    used before it; every non-empty address of the history is listed.
  */
  lemma {:induction false} MostRecentMeans(history: seq<Text>) returns (last: seq<nat>)
    ensures Dated(history, MostRecent(history), last)
    ensures forall x :: x in MostRecent(history) <==> x in history && x != []
  {
    hide Dated, Distinct, Without;
    last := [];
    if history == [] {
      assert Dated([], [], []) by { NothingDated(); }
    } else {
      var n := |history| - 1;
      var before, ip := history[..n], history[n];
      assert history == before + [ip];
      last := MostRecentMeans(before);
      MostRecentIsDistinct(before);
      if ip == [] {
        DatedThenUsed(before, MostRecent(before), last, ip);
      } else {
        WithoutKeepsOthers(MostRecent(before), ip);
        last := DatedWithout(before, MostRecent(before), last, ip);
        DatedInFront(before, Without(MostRecent(before), ip), last, ip);
        last := [n] + last;
      }
    }
  }

  lemma NothingDated()
    ensures Dated([], [], [])
  {
  }

  // ----- the cache

  /** A list node; the index holds nodes, as the source's map holds list iterators. */
  class Node {
    const ip: Text
    const info: GeoIPInfo

    constructor (ip: Text, info: GeoIPInfo)
      ensures this.ip == ip && this.info == info
    {
      this.ip := ip;
      this.info := info;
    }
  }

  ghost function Addresses(nodes: seq<Node>): (a: seq<Text>)
    ensures |a| == |nodes|
  {
    seq(|nodes|, i requires 0 <= i < |nodes| => nodes[i].ip)
  }

  class GeoIPResolver {
    const capacity: nat
    const database: Text -> GeoIPInfo
    var cache: seq<Node>
    var index: map<Text, Node>
    ghost var history: seq<Text>

    /** List and index describe the same distinct keys, with the database's answers. */
    ghost predicate Consistent()
      reads this
    {
      && capacity >= 1
      && Distinct(Addresses(cache))
      && (forall n :: n in cache ==> n.ip in index && index[n.ip] == n && n.info == database(n.ip))
      && (forall ip :: ip in index ==> index[ip] in cache && index[ip].ip == ip)
    }

    /** And the list holds exactly the most recently used addresses, in order. */
    ghost predicate Valid()
      reads this
    {
      Consistent() && Addresses(cache) == Take(MostRecent(history), capacity)
    }

    constructor (database: Text -> GeoIPInfo, cacheCapacity: nat)
      ensures Valid() && history == [] && this.database == database
      ensures capacity == if cacheCapacity > 0 then cacheCapacity else 1
    {
      this.database := database;
      capacity := if cacheCapacity > 0 then cacheCapacity else 1;
      cache, index, history := [], map[], [];
    }

    method Lookup(ip: Text) returns (info: GeoIPInfo)
      requires Valid()
      modifies this
      ensures Valid() && history == old(history) + [ip]
      ensures info == if ip == [] then GeoIPInfo([], 0, []) else database(ip)
      ensures |cache| <= capacity && Addresses(cache) <= MostRecent(history)
      ensures |cache| < capacity ==> Addresses(cache) == MostRecent(history)
    {
      ghost var before := MostRecent(history);
      assert (history + [ip])[..|history|] == history;
      MostRecentIsDistinct(history);
      if ip == [] {
        history := history + [ip];
        return NO_INFO;
      }
      UseKeepsRecency(before, ip, capacity);
      if ip in index {
        info := MoveToFront(ip);
      } else {
        info := Insert(ip);
      }
      history := history + [ip];
    }

    /** A hit: the node is spliced to the front of the list. */
    method MoveToFront(ip: Text) returns (info: GeoIPInfo)
      requires Consistent() && ip in index && |cache| <= capacity
      modifies this`cache
      ensures Consistent() && info == database(ip)
      ensures Addresses(cache) == Take([ip] + Without(old(Addresses(cache)), ip), capacity)
    {
      var node := index[ip];
      var at :| 0 <= at < |cache| && cache[at] == node;
      WithoutAt(Addresses(cache), at);
      ghost var earlier := cache;
      cache := [node] + cache[..at] + cache[at + 1..];
      Reordered(earlier, at, cache);
      return node.info;
    }

    /** A miss: a new node goes to the front, and the last one may be evicted. */
    method Insert(ip: Text) returns (info: GeoIPInfo)
      requires Consistent() && ip !in index && |cache| <= capacity
      modifies this`cache, this`index
      ensures Consistent() && info == database(ip)
      ensures Addresses(cache) == Take([ip] + Without(old(Addresses(cache)), ip), capacity)
    {
      info := database(ip);
      NotListed(ip);
      WithoutAbsent(Addresses(cache), ip);
      var node := new Node(ip, info);
      Push(node);
      if |cache| > capacity { Evict(); }
    }

    method Push(node: Node)
      requires Consistent() && node.ip !in index && node.info == database(node.ip)
      modifies this`cache, this`index
      ensures Consistent() && Addresses(cache) == [node.ip] + old(Addresses(cache))
    {
      NotListed(node.ip);
      ghost var earlier := cache;
      cache := [node] + cache;
      index := index[node.ip := node];
      assert Addresses(cache) == [node.ip] + Addresses(earlier);
    }

    method Evict()
      requires Consistent() && |cache| > 1
      modifies this`cache, this`index
      ensures Consistent() && Addresses(cache) == old(Addresses(cache))[..old(|cache|) - 1]
    {
      var n := |cache| - 1;
      index := index - {cache[n].ip};
      assert forall i :: 0 <= i < n ==> Addresses(cache)[i] != Addresses(cache)[n];
      cache := cache[..n];
      assert Addresses(cache) == old(Addresses(cache))[..n];
      forall node | node in cache ensures node in old(cache) && node.ip in index {
        var i :| 0 <= i < n && cache[i] == node;
        assert old(Addresses(cache))[i] == node.ip && old(cache)[i] == node;
      }
      forall ip | ip in index ensures index[ip] in cache {
        assert index[ip] in old(cache) && index[ip].ip == ip != old(cache)[n].ip;
        var i :| 0 <= i <= n && old(cache)[i] == index[ip];
        assert cache[i] == index[ip];
      }
    }

    lemma NotListed(ip: Text)
      requires Consistent() && ip !in index
      ensures ip !in Addresses(cache)
    {
      forall i | 0 <= i < |cache| ensures Addresses(cache)[i] != ip {
        assert cache[i] in cache;
      }
    }
  }

  lemma Reordered(nodes: seq<Node>, at: nat, moved: seq<Node>)
    requires at < |nodes| && moved == [nodes[at]] + nodes[..at] + nodes[at + 1..] && Distinct(Addresses(nodes))
    ensures Addresses(moved) == [nodes[at].ip] + (Addresses(nodes)[..at] + Addresses(nodes)[at + 1..])
    ensures Distinct(Addresses(moved)) && |moved| == |nodes|
    ensures forall n :: n in moved <==> n in nodes
  {
    var a := Addresses(nodes);
    assert Addresses(moved) == [a[at]] + (a[..at] + a[at + 1..]);
    forall i, j | 0 <= i < j < |moved| ensures Addresses(moved)[i] != Addresses(moved)[j] {
      var k, l := if i == 0 then at else if i <= at then i - 1 else i, if j <= at then j - 1 else j;
      assert Addresses(moved)[i] == a[k] && Addresses(moved)[j] == a[l] && k != l;
    }
    forall n | n in nodes ensures n in moved {
      var i :| 0 <= i < |nodes| && nodes[i] == n;
      assert moved[if i == at then 0 else if i < at then i + 1 else i] == n;
    }
  }
}
