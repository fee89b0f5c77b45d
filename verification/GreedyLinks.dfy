/**
 Which links `pack_traj_batch` makes, without recursion: each turn of a trajectory, in order of
 prompt length, is folded into the first later turn that links and that no earlier turn took.
 */
module GreedyLinks {
  import opened Sequences
  import opened Arithmetic
  import opened Turns
  import opened TurnPacking
  import Grouping

  // ----- One link -----

  /** What `Linkable` asks of two turns as they are built: the response spans overlap in at
      most one position, and the right turn starts with all tokens of the left one. */
  lemma LinkableMeans(a: Turn, b: Turn, width: nat)
    requires Built(a, width) && Built(b, width)
    ensures Linkable(a, b) <==>
      && Min(End(a), End(b)) - Max(a.promptLen, b.promptLen) <= 1
      && forall p :: 0 <= p < End(a) ==> a.ids[p] == b.ids[p]
  {
    var lo, hi := Max(a.promptLen, b.promptLen), Min(End(a), End(b));
    var both := And(a.mask, b.mask);
    assert forall p :: 0 <= p < width ==> (both[p] <==> lo <= p < hi);
    CountSpan(both, lo, hi);
    PrefixMeans(a.ids, b.ids, End(a));
  }

  lemma PrefixMeans(s: seq<int>, t: seq<int>, n: nat)
    requires n <= |s| && n <= |t|
    ensures s[..n] == t[..n] <==> forall p :: 0 <= p < n ==> s[p] == t[p]
  {
    if s[..n] == t[..n] {
      forall p | 0 <= p < n
        ensures s[p] == t[p]
      {
        assert s[p] == s[..n][p] == t[..n][p];
      }
    }
  }

  lemma {:induction false} CountSpan(mask: seq<bool>, lo: int, hi: int)
    requires 0 <= lo && hi <= |mask| && forall p :: 0 <= p < |mask| ==> (mask[p] <==> lo <= p < hi)
    ensures Count(mask) == Max(0, hi - lo)
  {
    if mask != [] {
      var rest := mask[1..];
      assert forall p :: 0 <= p < |rest| ==> rest[p] == mask[p + 1];
      CountSpan(rest, Max(0, lo - 1), hi - 1);
    }
  }

  /** y comes right behind x in the sequence. */
  ghost predicate Adjacent(c: seq<nat>, x: nat, y: nat) {
    exists i :: 0 <= i < |c| - 1 && c[i] == x && c[i + 1] == y
  }

  /** y comes right behind x in one of the chains. */
  ghost predicate Follows(chains: map<nat, seq<nat>>, x: nat, y: nat) {
    exists k :: k in chains && Adjacent(chains[k] + [k], x, y)
  }

  lemma AdjacentAppend(c: seq<nat>, r: nat, x: nat, y: nat)
    ensures Adjacent(c + [r], x, y) <==> Adjacent(c, x, y) || (c != [] && x == c[|c| - 1] && y == r)
  {
    var d := c + [r];
    if Adjacent(d, x, y) {
      var i :| 0 <= i < |d| - 1 && d[i] == x && d[i + 1] == y;
      assert i < |c| - 1 ==> c[i] == x && c[i + 1] == y;
    }
    if Adjacent(c, x, y) {
      var i :| 0 <= i < |c| - 1 && c[i] == x && c[i + 1] == y;
      assert d[i] == x && d[i + 1] == y;
    }
    if c != [] && x == c[|c| - 1] && y == r {
      assert d[|c| - 1] == x && d[|c| - 1 + 1] == y;
    }
  }

  /** Folding adds exactly the link it makes. */
  lemma FoldFollows(links: Links, left: nat, right: nat, x: nat, y: nat)
    requires left != right && right !in links.chains
    ensures Follows(Fold(links, left, right).chains, x, y)
       <==> Follows(links.chains, x, y) || (x == left && y == right)
  {
    hide Adjacent, ChainOf;
    var chains, next := links.chains, Fold(links, left, right).chains;
    var c := ChainOf(chains, left) + [left];
    assert next[right] == c;
    AdjacentAppend(c, right, x, y);
    AloneFollowsNothing(left, x, y);
    ChainOfIs(chains, left);
    if Follows(next, x, y) {
      var k :| k in next && Adjacent(next[k] + [k], x, y);
      assert k != right ==> k in chains && next[k] == chains[k];
    }
    if Follows(chains, x, y) {
      var k :| k in chains && Adjacent(chains[k] + [k], x, y);
      assert k != left ==> k in next && next[k] == chains[k];
      assert k == left ==> Adjacent(next[right] + [right], x, y);
    }
    if x == left && y == right {
      assert Adjacent(next[right] + [right], x, y);
    }
  }

  lemma ChainOfIs(chains: map<nat, seq<nat>>, k: nat)
    ensures ChainOf(chains, k) == if k in chains then chains[k] else []
  {
  }

  lemma AloneFollowsNothing(left: nat, x: nat, y: nat)
    ensures !Adjacent([left], x, y) && !Adjacent([] + [left], x, y)
  {
  }

  /** The search stops at the first later turn that is free and links, and at none exactly
      when there is none. */
  lemma {:induction false} FindRightFirst(batch: seq<Turn>, order: seq<nat>, i: nat, j: nat, taken: set<nat>)
    requires i < |order| && j <= |order| && InBatch(batch, order)
    ensures match FindRight(batch, order, i, j, taken)
      case None => forall m :: j <= m < |order| ==> order[m] in taken || !Linkable(batch[order[i]], batch[order[m]])
      case Some(y) => exists x :: (
        && j <= x < |order| && order[x] == y && y !in taken && Linkable(batch[order[i]], batch[y])
        && forall m :: j <= m < x ==> order[m] in taken || !Linkable(batch[order[i]], batch[order[m]]))
    decreases |order| - j
  {
    hide Linkable;
    if j < |order| && !(order[j] !in taken && Linkable(batch[order[i]], batch[order[j]])) {
      FindRightFirst(batch, order, i, j + 1, taken);
    }
  }

  // ----- The links of one trajectory -----

  /** The turn order[h] is folded into, if any. */
  ghost function RightOf(batch: seq<Turn>, order: seq<nat>, h: nat, links: Links): Option<nat>
    requires h < |order| && InBatch(batch, order)
  {
    FindRight(batch, order, h, h + 1, LinkOrder(batch, order, h, links).taken)
  }

  /** One of the first n turns of the order is x, and it is folded into y. */
  ghost predicate MadeBy(batch: seq<Turn>, order: seq<nat>, n: nat, links: Links, x: nat, y: nat)
    requires n <= |order| && InBatch(batch, order)
  {
    exists h :: 0 <= h < n && order[h] == x && RightOf(batch, order, h, links) == Some(y)
  }

  ghost predicate TakenBy(batch: seq<Turn>, order: seq<nat>, n: nat, links: Links, y: nat)
    requires n <= |order| && InBatch(batch, order)
  {
    exists h :: 0 <= h < n && RightOf(batch, order, h, links) == Some(y)
  }

  lemma MadeNext(batch: seq<Turn>, order: seq<nat>, n: nat, links: Links, x: nat, y: nat)
    requires n < |order| && InBatch(batch, order)
    ensures MadeBy(batch, order, n + 1, links, x, y)
       <==> MadeBy(batch, order, n, links, x, y) || (order[n] == x && RightOf(batch, order, n, links) == Some(y))
    ensures TakenBy(batch, order, n + 1, links, y)
       <==> TakenBy(batch, order, n, links, y) || RightOf(batch, order, n, links) == Some(y)
  {
    hide RightOf;
  }

  lemma NextLinks(batch: seq<Turn>, order: seq<nat>, n: nat, links: Links)
    requires n < |order| && InBatch(batch, order)
    ensures LinkOrder(batch, order, n + 1, links)
         == match RightOf(batch, order, n, links)
            case None => LinkOrder(batch, order, n, links)
            case Some(right) => Fold(LinkOrder(batch, order, n, links), order[n], right)
  {
    hide FindRight, Fold;
  }

  /** A right turn is a later one of the order, and neither a tail nor taken before. */
  lemma RightIsLater(batch: seq<Turn>, order: seq<nat>, h: nat, links: Links, done: set<nat>, traj: int)
    requires h < |order| && Ordered(batch, order, traj)
    requires LinksOk(batch, links, done) && forall i :: 0 <= i < |order| ==> order[i] !in done
    ensures var right := RightOf(batch, order, h, links);
      right.Some? ==>
        && right.value in order && right.value != order[h]
        && right.value !in LinkOrder(batch, order, h, links).chains
  {
    hide LinkOrder, FindRight, Linkable, AllChainsOk;
    LinkOrderOk(batch, order, h, links, done, traj);
    FindRightFirst(batch, order, h, h + 1, LinkOrder(batch, order, h, links).taken);
  }

  /** The links and the taken turns after n rounds: those before, and those made since. */
  lemma {:induction false} OrderFollows(batch: seq<Turn>, order: seq<nat>, n: nat, links: Links, done: set<nat>,
                                        traj: int, x: nat, y: nat)
    requires n <= |order| && Ordered(batch, order, traj)
    requires LinksOk(batch, links, done) && forall i :: 0 <= i < |order| ==> order[i] !in done
    ensures Follows(LinkOrder(batch, order, n, links).chains, x, y)
       <==> Follows(links.chains, x, y) || MadeBy(batch, order, n, links, x, y)
    ensures y in LinkOrder(batch, order, n, links).taken
       <==> y in links.taken || TakenBy(batch, order, n, links, y)
  {
    hide LinkOrder, RightOf, Follows, LinksOk, MadeBy, TakenBy, Fold;
    if n == 0 {
      NothingMade(batch, order, links, x, y);
    } else {
      OrderFollows(batch, order, n - 1, links, done, traj, x, y);
      MadeNext(batch, order, n - 1, links, x, y);
      NextLinks(batch, order, n - 1, links);
      RightIsLater(batch, order, n - 1, links, done, traj);
      var before, right := LinkOrder(batch, order, n - 1, links), RightOf(batch, order, n - 1, links);
      if right.Some? {
        FoldFollows(before, order[n - 1], right.value, x, y);
        FoldNext(before, order[n - 1], right.value);
      }
    }
  }

  lemma NothingMade(batch: seq<Turn>, order: seq<nat>, links: Links, x: nat, y: nat)
    requires InBatch(batch, order)
    ensures LinkOrder(batch, order, 0, links) == links
    ensures !MadeBy(batch, order, 0, links, x, y) && !TakenBy(batch, order, 0, links, y)
  {
    hide RightOf;
  }

  // ----- The links of the batch -----

  ghost function LinksBefore(batch: seq<Turn>, t: nat): Links
    requires t <= |Trajs(batch)|
  {
    LinkTrajs(batch, Trajs(batch), t)
  }

  ghost function Trajs(batch: seq<Turn>): (trajs: seq<int>)
    ensures Distinct(trajs)
  {
    Grouping.Keys(Labels(batch), Iota(|batch|))
  }

  ghost function DoneBefore(batch: seq<Turn>, t: nat): set<nat>
    requires t <= |Trajs(batch)|
  {
    DoneWith(batch, Trajs(batch)[..t])
  }

  /** Before a trajectory's turn comes, its turns are neither linked nor taken. */
  lemma BeforeOk(batch: seq<Turn>, t: nat)
    requires t < |Trajs(batch)|
    ensures var order := Order(batch, Trajs(batch)[t]);
      && Ordered(batch, order, Trajs(batch)[t])
      && LinksOk(batch, LinksBefore(batch, t), DoneBefore(batch, t))
      && forall i :: 0 <= i < |order| ==> order[i] !in DoneBefore(batch, t)
  {
    hide LinkTrajs, Order, LinksOk, Trajs, Ordered;
    var trajs := Trajs(batch);
    LinkTrajsOk(batch, trajs, t);
    OrderOk(batch, trajs[t]);
    OrderInTraj(batch, trajs[t]);
    assert trajs[t] !in trajs[..t];
  }

  lemma OrderInTraj(batch: seq<Turn>, traj: int)
    ensures var order := Order(batch, traj);
      forall i :: 0 <= i < |order| ==> order[i] < |batch| && batch[order[i]].traj == traj
  {
    hide Order;
    OrderOk(batch, traj);
  }

  lemma BeforeNext(batch: seq<Turn>, t: nat)
    requires t < |Trajs(batch)|
    ensures var order := Order(batch, Trajs(batch)[t]);
      LinksBefore(batch, t + 1) == LinkOrder(batch, order, |order|, LinksBefore(batch, t))
  {
    hide LinkOrder, Order, Trajs;
  }

  /** Only turns that had their turn are followed or taken. */
  lemma FollowedIsDone(batch: seq<Turn>, links: Links, done: set<nat>, x: nat, y: nat)
    requires LinksOk(batch, links, done)
    ensures Follows(links.chains, x, y) ==> x in done
  {
    if Follows(links.chains, x, y) {
      var k :| k in links.chains && Adjacent(links.chains[k] + [k], x, y);
      var c := links.chains[k] + [k];
      var i :| 0 <= i < |c| - 1 && c[i] == x && c[i + 1] == y;
      assert x == links.chains[k][i];
    }
  }

  lemma {:induction false} TakenIsDone(batch: seq<Turn>, t: nat, y: nat)
    requires t <= |Trajs(batch)|
    ensures y in LinksBefore(batch, t).taken ==> y in DoneBefore(batch, t)
  {
    hide LinkOrder, Order, Trajs, LinksOk, Ordered, RightOf, DoneWith, LinkTrajs;
    NothingBefore(batch);
    if t > 0 {
      var order := Order(batch, Trajs(batch)[t - 1]);
      TakenIsDone(batch, t - 1, y);
      BeforeOk(batch, t - 1);
      BeforeNext(batch, t - 1);
      var links, done := LinksBefore(batch, t - 1), DoneBefore(batch, t - 1);
      OrderFollows(batch, order, |order|, links, done, Trajs(batch)[t - 1], y, y);
      TakenInOrder(batch, order, |order|, links, done, Trajs(batch)[t - 1], y);
      DoneInOrder(batch, t - 1, y);
    }
  }

  lemma NothingBefore(batch: seq<Turn>)
    ensures LinksBefore(batch, 0) == Links(map[], {})
  {
  }

  lemma TakenInOrder(batch: seq<Turn>, order: seq<nat>, n: nat, links: Links, done: set<nat>, traj: int, y: nat)
    requires n <= |order| && Ordered(batch, order, traj)
    requires LinksOk(batch, links, done) && forall i :: 0 <= i < |order| ==> order[i] !in done
    ensures TakenBy(batch, order, n, links, y) ==> y in order
  {
    hide RightOf, Ordered, LinksOk;
    assert InBatch(batch, order) by {
      OrderedInBatch(batch, order, traj);
    }
    if TakenBy(batch, order, n, links, y) {
      var h :| 0 <= h < n && RightOf(batch, order, h, links) == Some(y);
      RightIsLater(batch, order, h, links, done, traj);
    }
  }

  lemma OrderedInBatch(batch: seq<Turn>, order: seq<nat>, traj: int)
    requires Ordered(batch, order, traj)
    ensures InBatch(batch, order)
  {
  }

  lemma DoneInOrder(batch: seq<Turn>, t: nat, y: nat)
    requires t < |Trajs(batch)|
    ensures y in DoneBefore(batch, t + 1) <==> y in DoneBefore(batch, t) || y in Order(batch, Trajs(batch)[t])
  {
    hide Trajs, Order;
    var trajs := Trajs(batch);
    OrderOk(batch, trajs[t]);
    assert trajs[..t + 1] == trajs[..t] + [trajs[t]];
  }

  /** What follows a turn is settled when its trajectory is, and stays. */
  lemma {:induction false} SettledOnce(batch: seq<Turn>, t: nat, u: nat, x: nat, y: nat)
    requires t < u <= |Trajs(batch)| && x in Order(batch, Trajs(batch)[t])
    ensures var order := Order(batch, Trajs(batch)[t]);
      Follows(LinksBefore(batch, u).chains, x, y) <==> MadeBy(batch, order, |order|, LinksBefore(batch, t), x, y)
    decreases u
  {
    hide LinkOrder, Order, Trajs, LinksOk, Ordered, RightOf, DoneWith, LinkTrajs, Follows, MadeBy;
    var last := Order(batch, Trajs(batch)[u - 1]);
    BeforeOk(batch, u - 1);
    BeforeNext(batch, u - 1);
    OrderFollows(batch, last, |last|, LinksBefore(batch, u - 1), DoneBefore(batch, u - 1), Trajs(batch)[u - 1], x, y);
    if u - 1 == t {
      FollowedIsDone(batch, LinksBefore(batch, t), DoneBefore(batch, t), x, y);
      NotDoneYet(batch, t, x);
    } else {
      SettledOnce(batch, t, u - 1, x, y);
      OrdersApart(batch, t, u - 1, x);
      NotMade(batch, last, LinksBefore(batch, u - 1), x, y);
    }
  }

  lemma NotDoneYet(batch: seq<Turn>, t: nat, x: nat)
    requires t < |Trajs(batch)| && x in Order(batch, Trajs(batch)[t])
    ensures x !in DoneBefore(batch, t)
  {
    hide LinkTrajs, Order, Trajs, LinksOk, Ordered, DoneWith;
    BeforeOk(batch, t);
  }

  lemma OrdersApart(batch: seq<Turn>, t: nat, u: nat, x: nat)
    requires t < u < |Trajs(batch)| && x in Order(batch, Trajs(batch)[t])
    ensures x !in Order(batch, Trajs(batch)[u])
  {
    hide Order, Trajs;
    OrderOk(batch, Trajs(batch)[t]);
    OrderOk(batch, Trajs(batch)[u]);
    assert Trajs(batch)[t] != Trajs(batch)[u];
  }

  lemma NotMade(batch: seq<Turn>, order: seq<nat>, links: Links, x: nat, y: nat)
    requires InBatch(batch, order) && x !in order
    ensures !MadeBy(batch, order, |order|, links, x, y)
  {
    hide RightOf;
  }

  // ----- The law -----

  /** The m-th turn of the order was taken by one of the first i. */
  ghost predicate TakenEarlier(chains: map<nat, seq<nat>>, order: seq<nat>, i: nat, m: nat)
    requires i <= |order| && m < |order|
  {
    exists h :: 0 <= h < i && Follows(chains, order[h], order[m])
  }

  /** From position j on, m is the first of the order that links to order[i] and was not taken. */
  ghost predicate FirstFree(batch: seq<Turn>, chains: map<nat, seq<nat>>, order: seq<nat>, i: nat, m: nat)
    requires i < m < |order| && InBatch(batch, order)
  {
    && Linkable(batch[order[i]], batch[order[m]]) && !TakenEarlier(chains, order, i, m)
    && forall l :: i < l < m ==> !Linkable(batch[order[i]], batch[order[l]]) || TakenEarlier(chains, order, i, l)
  }

  lemma FollowsRight(batch: seq<Turn>, t: nat, h: nat, y: nat)
    requires t < |Trajs(batch)| && h < |Order(batch, Trajs(batch)[t])|
    ensures var order := Order(batch, Trajs(batch)[t]);
      Follows(PackMap(batch), order[h], y) <==> RightOf(batch, order, h, LinksBefore(batch, t)) == Some(y)
  {
    hide Order, Trajs, LinkTrajs, LinksOk, Follows, RightOf, MadeBy, DoneWith, Ordered;
    var order := Order(batch, Trajs(batch)[t]);
    AllLinked(batch);
    SettledOnce(batch, t, |Trajs(batch)|, order[h], y);
    OrderOk(batch, Trajs(batch)[t]);
    MadeOnce(batch, order, LinksBefore(batch, t), Trajs(batch)[t], h, y);
  }

  lemma AllLinked(batch: seq<Turn>)
    ensures PackMap(batch) == LinksBefore(batch, |Trajs(batch)|).chains
  {
    hide LinkTrajs;
  }

  lemma MadeOnce(batch: seq<Turn>, order: seq<nat>, links: Links, traj: int, h: nat, y: nat)
    requires h < |order| && Ordered(batch, order, traj)
    ensures MadeBy(batch, order, |order|, links, order[h], y) <==> RightOf(batch, order, h, links) == Some(y)
  {
    hide RightOf;
  }

  lemma TakenMeans(batch: seq<Turn>, t: nat, i: nat, m: nat)
    requires t < |Trajs(batch)|
    requires i <= |Order(batch, Trajs(batch)[t])| && m < |Order(batch, Trajs(batch)[t])|
    ensures var order := Order(batch, Trajs(batch)[t]);
      TakenEarlier(PackMap(batch), order, i, m)
      <==> order[m] in LinkOrder(batch, order, i, LinksBefore(batch, t)).taken
  {
    hide Order, Trajs, LinkTrajs, LinksOk, Follows, RightOf, DoneWith, Ordered, LinkOrder;
    var order, y := Order(batch, Trajs(batch)[t]), Order(batch, Trajs(batch)[t])[m];
    BeforeOk(batch, t);
    OrderFollows(batch, order, i, LinksBefore(batch, t), DoneBefore(batch, t), Trajs(batch)[t], y, y);
    TakenIsDone(batch, t, y);
    forall h | 0 <= h < i
      ensures Follows(PackMap(batch), order[h], y) <==> RightOf(batch, order, h, LinksBefore(batch, t)) == Some(y)
    {
      FollowsRight(batch, t, h, y);
    }
  }

  lemma TrajOf(batch: seq<Turn>, traj: int) returns (t: nat)
    requires Order(batch, traj) != []
    ensures t < |Trajs(batch)| && Trajs(batch)[t] == traj
  {
    hide Order;
    OrderOk(batch, traj);
    var x := Order(batch, traj)[0];
    assert Labels(batch)[Iota(|batch|)[x]] == traj;
    assert traj in Trajs(batch);
    t :| t < |Trajs(batch)| && Trajs(batch)[t] == traj;
  }

  /** Each turn is followed in its chain by the first later turn of the order that links to it
      and that no earlier turn took, and by no other. */
  lemma FollowedByFirstFree(batch: seq<Turn>, traj: int, i: nat, y: nat)
    requires i < |Order(batch, traj)|
    ensures Follows(PackMap(batch), Order(batch, traj)[i], y) <==>
      exists m :: i < m < |Order(batch, traj)| && Order(batch, traj)[m] == y
                  && FirstFree(batch, PackMap(batch), Order(batch, traj), i, m)
  {
    hide Order, Trajs, LinkTrajs, LinksOk, Follows, DoneWith, Ordered, LinkOrder, Linkable, TakenEarlier, PackMap;
    var t := TrajOf(batch, traj);
    var order, chains := Order(batch, traj), PackMap(batch);
    FollowsRight(batch, t, i, y);
    var taken := LinkOrder(batch, order, i, LinksBefore(batch, t)).taken;
    forall m | i < m < |order|
      ensures TakenEarlier(chains, order, i, m) <==> order[m] in taken
    {
      TakenMeans(batch, t, i, m);
    }
    FirstFound(batch, chains, order, i, y, taken, traj);
  }

  lemma FirstFound(batch: seq<Turn>, chains: map<nat, seq<nat>>, order: seq<nat>, i: nat, y: nat, taken: set<nat>,
                   traj: int)
    requires i < |order| && InBatch(batch, order)
    requires forall m :: i < m < |order| ==> (TakenEarlier(chains, order, i, m) <==> order[m] in taken)
    ensures FindRight(batch, order, i, i + 1, taken) == Some(y) <==>
      exists m :: i < m < |order| && order[m] == y && FirstFree(batch, chains, order, i, m)
  {
    hide Linkable, TakenEarlier, FindRight;
    FindRightFirst(batch, order, i, i + 1, taken);
    if m :| i < m < |order| && order[m] == y && FirstFree(batch, chains, order, i, m) {
      var right := FindRight(batch, order, i, i + 1, taken);
      assert right.Some?;
      var x :| i + 1 <= x < |order| && order[x] == right.value && right.value !in taken
        && Linkable(batch[order[i]], batch[right.value])
        && forall l :: i + 1 <= l < x ==> order[l] in taken || !Linkable(batch[order[i]], batch[order[l]]);
      assert x == m;
    }
  }

  /** No link is missing: a turn that was folded into none finds every later turn that it links
      to taken, behind another turn of a chain. */
  lemma NoLinkMissing(batch: seq<Turn>, traj: int, i: nat, m: nat)
    requires i < m < |Order(batch, traj)|
    requires forall k :: k in PackMap(batch) ==> Order(batch, traj)[i] !in PackMap(batch)[k]
    requires Linkable(batch[Order(batch, traj)[i]], batch[Order(batch, traj)[m]])
    ensures exists h :: 0 <= h < i && Follows(PackMap(batch), Order(batch, traj)[h], Order(batch, traj)[m])
  {
    hide Order, PackMap, Linkable, Follows;
    var order, chains := Order(batch, traj), PackMap(batch);
    if !TakenEarlier(chains, order, i, m) {
      var l := LeastFree(batch, chains, order, i, i + 1, m);
      FollowedByFirstFree(batch, traj, i, order[l]);
      FollowedIsPrefix(chains, order[i], order[l]);
      assert false;
    }
  }

  lemma FollowedIsPrefix(chains: map<nat, seq<nat>>, x: nat, y: nat)
    requires Follows(chains, x, y)
    ensures exists k :: k in chains && x in chains[k]
  {
    var k :| k in chains && Adjacent(chains[k] + [k], x, y);
    var i :| 0 <= i < |chains[k] + [k]| - 1 && (chains[k] + [k])[i] == x && (chains[k] + [k])[i + 1] == y;
    assert chains[k][i] == x;
  }

  lemma {:induction false} LeastFree(batch: seq<Turn>, chains: map<nat, seq<nat>>, order: seq<nat>, i: nat, j: nat,
                                     m: nat) returns (l: nat)
    requires i < j <= m < |order| && InBatch(batch, order)
    requires Linkable(batch[order[i]], batch[order[m]]) && !TakenEarlier(chains, order, i, m)
    requires forall x :: i < x < j ==> !Linkable(batch[order[i]], batch[order[x]]) || TakenEarlier(chains, order, i, x)
    ensures i < l <= m && FirstFree(batch, chains, order, i, l)
    decreases m - j
  {
    hide Linkable, TakenEarlier;
    if Linkable(batch[order[i]], batch[order[j]]) && !TakenEarlier(chains, order, i, j) {
      l := j;
    } else {
      l := LeastFree(batch, chains, order, i, j + 1, m);
    }
  }

  // ----- The order of a trajectory's turns -----

  /** By prompt length, equal ones in the order of the batch. */
  ghost predicate ByLengthAndPlace(batch: seq<Turn>, s: seq<nat>)
    requires InBatch(batch, s)
  {
    forall i, j :: 0 <= i < j < |s| ==> Sooner(batch, s[i], s[j])
  }

  predicate Sooner(batch: seq<Turn>, x: nat, y: nat)
    requires x < |batch| && y < |batch|
  {
    batch[x].promptLen < batch[y].promptLen || (batch[x].promptLen == batch[y].promptLen && x < y)
  }

  lemma PrependSooner(batch: seq<Turn>, x: nat, s: seq<nat>)
    requires InBatch(batch, s) && x < |batch| && ByLengthAndPlace(batch, s)
    requires forall y :: y in s ==> y < |batch| && Sooner(batch, x, y)
    ensures ByLengthAndPlace(batch, [x] + s)
  {
    var r := [x] + s;
    assert forall i :: 0 < i < |r| ==> r[i] == s[i - 1] && s[i - 1] in s;
  }

  lemma TailSooner(batch: seq<Turn>, s: seq<nat>)
    requires s != [] && InBatch(batch, s) && ByLengthAndPlace(batch, s)
    ensures ByLengthAndPlace(batch, s[1..])
    ensures forall y :: y in s[1..] ==> y in s && y < |batch| && Sooner(batch, s[0], y)
  {
  }

  lemma {:induction false} InsertKeepsPlace(batch: seq<Turn>, x: nat, s: seq<nat>)
    requires InBatch(batch, s) && x < |batch| && ByLengthAndPlace(batch, s) && forall y :: y in s ==> x < y
    ensures ByLengthAndPlace(batch, InsertTurn(batch, x, s))
    ensures forall y :: y in InsertTurn(batch, x, s) <==> y == x || y in s
  {
    hide ByLengthAndPlace;
    if s != [] {
      assert s == [s[0]] + s[1..];
      TailSooner(batch, s);
    }
    if s == [] || batch[x].promptLen <= batch[s[0]].promptLen {
      PrependSooner(batch, x, s);
    } else {
      InsertKeepsPlace(batch, x, s[1..]);
      PrependSooner(batch, s[0], InsertTurn(batch, x, s[1..]));
    }
  }

  ghost predicate Increasing(s: seq<nat>) {
    forall i, j :: 0 <= i < j < |s| ==> s[i] < s[j]
  }

  lemma {:induction false} ByPromptKeepsPlace(batch: seq<Turn>, idxs: seq<nat>)
    requires InBatch(batch, idxs) && Increasing(idxs)
    ensures ByLengthAndPlace(batch, ByPrompt(batch, idxs))
    ensures forall y :: y in ByPrompt(batch, idxs) <==> y in idxs
  {
    if idxs != [] {
      assert idxs == [idxs[0]] + idxs[1..];
      ByPromptKeepsPlace(batch, idxs[1..]);
      InsertKeepsPlace(batch, idxs[0], ByPrompt(batch, idxs[1..]));
    }
  }

  lemma {:induction false} MembersIncrease(labels: seq<int>, n: nat, traj: int)
    requires n <= |labels|
    ensures Increasing(Grouping.Members(labels, Iota(n), traj))
  {
    if n > 0 {
      assert Iota(n)[..n - 1] == Iota(n - 1);
      MembersIncrease(labels, n - 1, traj);
    }
  }

  /** A trajectory's order lists all its turns, by prompt length, equal ones as in the batch. */
  lemma OrderMeans(batch: seq<Turn>, traj: int)
    ensures ByLengthAndPlace(batch, Order(batch, traj))
    ensures forall x: nat :: x in Order(batch, traj) <==> x < |batch| && batch[x].traj == traj
  {
    hide ByLengthAndPlace, ByPrompt, Grouping.Members;
    OrderOk(batch, traj);
    MembersIncrease(Labels(batch), |batch|, traj);
    ByPromptKeepsPlace(batch, Grouping.Members(Labels(batch), Iota(|batch|), traj));
  }
}
