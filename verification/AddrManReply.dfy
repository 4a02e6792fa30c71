/**
 The reply to a getaddr request: a bounded number of distinct entries worth handing out,
 and all of them when they are few.
 */
module AddrManReply {
  import opened AddrManState
  import opened AddrManOps
  import opened AddrManSteps

  /**
   An entry worth handing out: tried within the last minute; or else seen within thirty days and not in the
   future, without three failures before the first success or ten since a success over a week ago.
   */
  predicate Presentable(i: Stats, now: int) {
    || (i.lastTry != 0 && i.lastTry >= now - 60)
    || (&& i.time != 0 && now - 2592000 <= i.time <= now + 600
        && (i.lastSuccess == 0 ==> i.attempts < 3)
        && (i.lastSuccess < now - 604800 ==> i.attempts < 10))
  }

  /** The ids of the list whose entries are worth handing out. */
  ghost function Picked(info: map<int, Info>, ids: seq<int>, now: int): seq<int> {
    if ids == [] then [] else
    var id := ids[|ids| - 1];
    var rest := Picked(info, ids[..|ids| - 1], now);
    if id in info && Presentable(info[id].stats, now) then rest + [id] else rest
  }

  ghost predicate Distinct(ids: seq<int>) { forall i, j :: 0 <= i < j < |ids| ==> ids[i] != ids[j] }

  lemma {:induction false} PickedAre(info: map<int, Info>, ids: seq<int>, now: int)
    requires Distinct(ids)
    ensures Distinct(Picked(info, ids, now))
    ensures forall id :: id in Picked(info, ids, now) <==>
      id in ids && id in info && Presentable(info[id].stats, now)
    decreases |ids|
  {
    if ids != [] {
      var last := ids[|ids| - 1];
      assert ids == ids[..|ids| - 1] + [last];
      PickedAre(info, ids[..|ids| - 1], now);
    }
  }

  /** The entry i is the one that s keeps under this id, wherever it is in random. */
  ghost predicate IsEntry(s: State, id: int, i: Info) {
    id in s.info && i == s.info[id].(randomPos := i.randomPos)
  }

  /** reply lists the entries with these ids. */
  ghost predicate Lists(s: State, ids: seq<int>, reply: seq<Info>) {
    |ids| == |reply| && forall i :: 0 <= i < |ids| ==> IsEntry(s, ids[i], reply[i])
  }

  /** u is s with the entries shuffled. */
  ghost predicate Shuffled(s: State, u: State) {
    u.RandomIndexed() && OnlyRandomPos(s, u) && |u.random| == |s.random|
  }

  lemma DrawShuffles(s: State, u: State, n: nat, draw: nat -> nat)
    requires Shuffled(s, u) && n < |u.random|
    ensures Shuffled(s, Draw(u, n, draw)) && Draw(u, n, draw).random[..n] == u.random[..n]
  {
    var j := if n <= draw(n) < |u.random| then draw(n) else n;
    SwappedIsIndexed(u, n, j, Draw(u, n, draw));
    ShuffledTwice(s, u, Draw(u, n, draw));
  }

  lemma ShuffledTwice(s: State, u: State, v: State)
    requires OnlyRandomPos(s, u) && OnlyRandomPos(u, v)
    ensures OnlyRandomPos(s, v)
  {
  }

  lemma PresentableIsNotTerrible(i: Stats, now: int)
    ensures Presentable(i, now) <==> !IsTerrible(i, now)
  {
  }

  lemma OfferLists(s: State, u: State, n: nat, reply: seq<Info>, now: int)
    requires Shuffled(s, u) && n < |u.random| && Lists(s, Picked(s.info, u.random[..n], now), reply)
    ensures Lists(s, Picked(s.info, u.random[..n + 1], now), Offer(u, n, reply, now))
    ensures |Offer(u, n, reply, now)| <= |reply| + 1
  {
    var id := u.random[n];
    assert u.random[..n + 1][..n] == u.random[..n];
    assert id in u.info && u.info[id].stats == s.info[id].stats;
    PresentableIsNotTerrible(s.info[id].stats, now);
  }

  /** The reply lists the entries worth handing out among the first m of the shuffled ones. */
  ghost predicate ListsFirst(s: State, a: AddrReply, m: nat, limit: nat, now: int) {
    && Shuffled(s, a.state) && m <= |a.state.random|
    && Lists(s, Picked(s.info, a.state.random[..m], now), a.addrs)
    && |a.addrs| <= limit && (|a.addrs| < limit ==> m == |a.state.random|)
  }

  lemma {:induction false} GetAddrFromLists(s: State, u: State, n: nat, reply: seq<Info>, limit: nat, now: int,
                                            draw: nat -> nat) returns (m: nat)
    requires Shuffled(s, u) && n <= |u.random| && |reply| <= limit
    requires Lists(s, Picked(s.info, u.random[..n], now), reply)
    ensures ListsFirst(s, GetAddrFrom(u, n, reply, limit, now, draw), m, limit, now)
    decreases |u.random| - n
  {
    if n == |u.random| || |reply| == limit {
      m := n;
    } else {
      var v := Draw(u, n, draw);
      DrawShuffles(s, u, n, draw);
      OfferLists(s, v, n, reply, now);
      m := GetAddrFromLists(s, v, n + 1, Offer(v, n, reply, now), limit, now, draw);
    }
  }

  /** The ids of all entries worth handing out. */
  ghost function PresentableIds(s: State, now: int): set<int> {
    set id | id in s.info && Presentable(s.info[id].stats, now)
  }

  /**
   A reply to getaddr holds distinct entries, each worth handing out, and as many of them as its two bounds
   allow: 2500, and 23 of each hundred that are known.
   */
  ghost predicate IsReply(s: State, reply: seq<Info>, now: int) {
    && |reply| <= 2500 && 100 * |reply| <= 23 * |s.random|
    && (forall i :: 0 <= i < |reply| ==>
          && reply[i].addr.ip in s.addr && IsEntry(s, s.addr[reply[i].addr.ip], reply[i])
          && Presentable(reply[i].stats, now))
    && (forall i, j :: 0 <= i < j < |reply| ==> reply[i].addr.ip != reply[j].addr.ip)
    && (|reply| < 2500 && 100 * (|reply| + 1) <= 23 * |s.random| ==>
          forall id :: id in PresentableIds(s, now) ==> Mentions(reply, s.info[id].addr))
  }

  ghost predicate Mentions(reply: seq<Info>, a: Service) { exists i :: 0 <= i < |reply| && reply[i].addr == a }

  lemma DistinctRandom(s: State, m: nat)
    requires s.RandomIndexed() && m <= |s.random|
    ensures Distinct(s.random[..m])
  {
    forall i, j | 0 <= i < j < m
      ensures s.random[i] != s.random[j]
    {
      assert s.info[s.random[i]].randomPos == i;
    }
  }

  lemma ListedIsReply(s: State, a: AddrReply, m: nat, now: int)
    requires s.AddrIndexed() && ListsFirst(s, a, m, GetAddrLimit(|s.random|), now)
    ensures IsReply(s, a.addrs, now)
  {
    var ids := Picked(s.info, a.state.random[..m], now);
    DistinctRandom(a.state, m);
    PickedAre(s.info, a.state.random[..m], now);
    forall i | 0 <= i < |ids|
      ensures a.addrs[i].addr.ip in s.addr && s.addr[a.addrs[i].addr.ip] == ids[i]
      ensures IsEntry(s, ids[i], a.addrs[i]) && Presentable(a.addrs[i].stats, now)
    {
      assert ids[i] in ids;
      assert s.info[ids[i]].addr.ip in s.addr;
    }
    if m == |a.state.random| {
      forall id | id in PresentableIds(s, now)
        ensures Mentions(a.addrs, s.info[id].addr)
      {
        assert a.state.random[..m] == a.state.random;
        assert a.state.random[a.state.info[id].randomPos] == id;
        assert id in ids;
        var i :| 0 <= i < |ids| && ids[i] == id;
        assert a.addrs[i].addr == s.info[id].addr;
      }
    }
  }

  lemma GetAddrReplies(net: Net, s: State, now: int, draw: nat -> nat)
    requires s.Sound(net)
    ensures IsReply(s, GetAddr(s, now, draw).addrs, now)
  {
    var m := GetAddrFromLists(s, s, 0, [], GetAddrLimit(|s.random|), now, draw);
    ListedIsReply(s, GetAddr(s, now, draw), m, now);
  }
}
