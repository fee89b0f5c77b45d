/**
 `pack_traj_batch`: which turns fold into which, and how the folded turns form chains. The
 loops over pairs of turns compute `PackMap`; RowFolding.dfy says what a folded row carries.
 */
module TurnPacking {
  import opened Sequences
  import opened Turns
  import Grouping

  // ----- Which turns fold -----

  /** The response masks share at most one position, and the right turn's tokens start
      with all of the left turn's. */
  predicate Linkable(a: Turn, b: Turn) {
    && |a.mask| == |b.mask| && End(a) <= |a.ids| == |b.ids|
    && Count(And(a.mask, b.mask)) <= 1
    && a.ids[..End(a)] == b.ids[..End(a)]
  }

  function Labels(batch: seq<Turn>): (labels: seq<int>)
    ensures |labels| == |batch|
  {
    seq(|batch|, i requires 0 <= i < |batch| => batch[i].traj)
  }

  ghost predicate InBatch(batch: seq<Turn>, order: seq<nat>) {
    forall i :: 0 <= i < |order| ==> order[i] < |batch|
  }

  function InsertTurn(batch: seq<Turn>, x: nat, s: seq<nat>): (r: seq<nat>)
    requires InBatch(batch, s) && x < |batch|
    ensures |r| == |s| + 1 && InBatch(batch, r)
    ensures multiset(r) == multiset(s) + multiset{x}
  {
    if s == [] || batch[x].promptLen <= batch[s[0]].promptLen then [x] + s
    else
      assert s == [s[0]] + s[1..];
      [s[0]] + InsertTurn(batch, x, s[1..])
  }

  /** `sorted(idxes, key=prompt length)`. */
  function ByPrompt(batch: seq<Turn>, idxs: seq<nat>): (r: seq<nat>)
    requires InBatch(batch, idxs)
    ensures |r| == |idxs| && InBatch(batch, r)
    ensures multiset(r) == multiset(idxs)
  {
    if idxs == [] then []
    else
      assert idxs == [idxs[0]] + idxs[1..];
      InsertTurn(batch, idxs[0], ByPrompt(batch, idxs[1..]))
  }

  /** `pack_map` (each right turn with the turns folded into it) and `passed_as_suffix`. */
  datatype Links = Links(chains: map<nat, seq<nat>>, taken: set<nat>)

  /** The first turn from position j on that is free and links to order[i]. */
  function FindRight(batch: seq<Turn>, order: seq<nat>, i: nat, j: nat, taken: set<nat>): (right: Option<nat>)
    requires i < |order| && j <= |order| && InBatch(batch, order)
    decreases |order| - j
  {
    if j == |order| then None
    else if order[j] !in taken && Linkable(batch[order[i]], batch[order[j]]) then Some(order[j])
    else FindRight(batch, order, i, j + 1, taken)
  }

  function ChainOf(chains: map<nat, seq<nat>>, k: nat): seq<nat> {
    if k in chains then chains[k] else []
  }

  /** Left turn order[i] moves, with what was folded into it, under its right turn. */
  function Fold(links: Links, left: nat, right: nat): Links {
    Links((links.chains - {left})[right := ChainOf(links.chains, left) + [left]], links.taken + {right})
  }

  function LinkOne(batch: seq<Turn>, order: seq<nat>, i: nat, links: Links): Links
    requires i < |order| && InBatch(batch, order)
  {
    match FindRight(batch, order, i, i + 1, links.taken)
    case None => links
    case Some(right) => Fold(links, order[i], right)
  }

  function LinkOrder(batch: seq<Turn>, order: seq<nat>, n: nat, links: Links): Links
    requires n <= |order| && InBatch(batch, order)
  {
    if n == 0 then links else LinkOne(batch, order, n - 1, LinkOrder(batch, order, n - 1, links))
  }

  /** One trajectory's turns by prompt length. */
  function Order(batch: seq<Turn>, traj: int): (order: seq<nat>)
    ensures InBatch(batch, order)
  {
    ByPrompt(batch, Grouping.Members(Labels(batch), Iota(|batch|), traj))
  }

  function LinkTrajs(batch: seq<Turn>, trajs: seq<int>, n: nat): Links
    requires n <= |trajs|
  {
    if n == 0 then Links(map[], {})
    else
      var order := Order(batch, trajs[n - 1]);
      LinkOrder(batch, order, |order|, LinkTrajs(batch, trajs, n - 1))
  }

  function PackMap(batch: seq<Turn>): map<nat, seq<nat>> {
    var trajs := Grouping.Keys(Labels(batch), Iota(|batch|));
    LinkTrajs(batch, trajs, |trajs|).chains
  }

  // ----- Chains are well formed -----

  ghost predicate Linked(a: Turn, b: Turn) {
    a.traj == b.traj && a.promptLen <= b.promptLen && Linkable(a, b)
  }

  ghost predicate ChainOk(batch: seq<Turn>, c: seq<nat>) {
    && |c| >= 2 && InBatch(batch, c) && Distinct(c)
    && forall i :: 0 <= i < |c| - 1 ==> Linked(batch[c[i]], batch[c[i + 1]])
  }

  /** Tails are taken, folded turns are done and no tails, and no turn is folded twice. */
  ghost predicate Apart(links: Links, done: set<nat>) {
    var chains := links.chains;
    && (forall k :: k in chains ==> k in links.taken)
    && (forall k, x :: k in chains && x in chains[k] ==> x in done && x !in chains)
    && (forall k, l, x :: k in chains && l in chains && k != l && x in chains[k] ==> x !in chains[l])
  }

  ghost predicate AllChainsOk(batch: seq<Turn>, chains: map<nat, seq<nat>>) {
    forall k :: k in chains ==> ChainOk(batch, chains[k] + [k])
  }

  ghost predicate LinksOk(batch: seq<Turn>, links: Links, done: set<nat>) {
    Apart(links, done) && AllChainsOk(batch, links.chains)
  }

  /** The turns of one trajectory, by prompt length, each once. */
  ghost predicate Ordered(batch: seq<Turn>, order: seq<nat>, traj: int) {
    && InBatch(batch, order) && Distinct(order)
    && (forall i :: 0 <= i < |order| ==> batch[order[i]].traj == traj)
    && (forall i, j :: 0 <= i <= j < |order| ==> batch[order[i]].promptLen <= batch[order[j]].promptLen)
  }

  lemma {:induction false} FindRightFinds(batch: seq<Turn>, order: seq<nat>, i: nat, j: nat, taken: set<nat>)
    requires i < |order| && j <= |order| && InBatch(batch, order)
    ensures var right := FindRight(batch, order, i, j, taken);
      right.Some? ==> exists x :: j <= x < |order| && order[x] == right.value && right.value !in taken
                                  && Linkable(batch[order[i]], batch[order[x]])
    decreases |order| - j
  {
    if j < |order| && !(order[j] !in taken && Linkable(batch[order[i]], batch[order[j]])) {
      FindRightFinds(batch, order, i, j + 1, taken);
    }
  }

  lemma FoldApart(links: Links, done: set<nat>, left: nat, right: nat)
    requires Apart(links, done) && left != right
    requires left !in done && right !in done && right !in links.taken
    ensures Apart(Fold(links, left, right), done + {left})
  {
    hide Fold;
    FoldNext(links, left, right);
  }

  lemma FoldNext(links: Links, left: nat, right: nat)
    requires left != right
    ensures var chains, next := links.chains, Fold(links, left, right).chains;
      && (forall k :: k in next <==> k == right || (k in chains && k != left))
      && (forall k :: k in next && k != right ==> next[k] == chains[k])
      && (forall x :: x in next[right] <==> (left in chains && x in chains[left]) || x == left)
    ensures Fold(links, left, right).taken == links.taken + {right}
  {
  }

  lemma FoldChainOk(batch: seq<Turn>, links: Links, done: set<nat>, left: nat, right: nat)
    requires LinksOk(batch, links, done)
    requires left < |batch| && right < |batch| && left != right && right !in done
    requires Linked(batch[left], batch[right])
    ensures ChainOk(batch, ChainOf(links.chains, left) + [left] + [right])
  {
    var c := ChainOf(links.chains, left) + [left];
    assert forall x :: x in c ==> x in done || x == left;
    assert left in links.chains ==> ChainOk(batch, c);
    assert right !in c;
  }

  lemma FoldOk(batch: seq<Turn>, links: Links, done: set<nat>, left: nat, right: nat)
    requires LinksOk(batch, links, done)
    requires left < |batch| && right < |batch| && left != right
    requires left !in done && right !in done && right !in links.taken
    requires Linked(batch[left], batch[right])
    ensures LinksOk(batch, Fold(links, left, right), done + {left})
  {
    FoldApart(links, done, left, right);
    FoldChainOk(batch, links, done, left, right);
    hide ChainOk, Apart;
  }

  function Elements(s: seq<nat>): set<nat> {
    set x | x in s
  }

  lemma LinkOneOk(batch: seq<Turn>, order: seq<nat>, i: nat, links: Links, done: set<nat>, traj: int)
    requires i < |order| && Ordered(batch, order, traj) && LinksOk(batch, links, done)
    requires forall j :: i <= j < |order| ==> order[j] !in done
    ensures LinksOk(batch, LinkOne(batch, order, i, links), done + {order[i]})
  {
    hide AllChainsOk;
    FindRightFinds(batch, order, i, i + 1, links.taken);
    match FindRight(batch, order, i, i + 1, links.taken) {
      case None =>
      case Some(right) =>
        FoldOk(batch, links, done, order[i], right);
    }
  }

  lemma {:induction false} LinkOrderOk(batch: seq<Turn>, order: seq<nat>, n: nat, links: Links, done: set<nat>,
                                       traj: int)
    requires n <= |order| && Ordered(batch, order, traj)
    requires LinksOk(batch, links, done) && forall i :: 0 <= i < |order| ==> order[i] !in done
    ensures LinksOk(batch, LinkOrder(batch, order, n, links), done + Elements(order[..n]))
  {
    hide LinksOk, LinkOne;
    if n == 0 {
      assert done + Elements(order[..0]) == done;
    } else {
      LinkOrderOk(batch, order, n - 1, links, done, traj);
      LinkOneOk(batch, order, n - 1, LinkOrder(batch, order, n - 1, links), done + Elements(order[..n - 1]), traj);
      assert order[..n] == order[..n - 1] + [order[n - 1]];
      assert done + Elements(order[..n - 1]) + {order[n - 1]} == done + Elements(order[..n]);
    }
  }

  ghost predicate PromptsAscend(batch: seq<Turn>, s: seq<nat>, lo: nat)
    requires InBatch(batch, s)
  {
    && (forall i :: 0 <= i < |s| ==> lo <= batch[s[i]].promptLen)
    && (forall i, j :: 0 <= i <= j < |s| ==> batch[s[i]].promptLen <= batch[s[j]].promptLen)
  }

  lemma {:induction false} InsertTurnOrders(batch: seq<Turn>, x: nat, s: seq<nat>, lo: nat)
    requires InBatch(batch, s) && x < |batch| && lo <= batch[x].promptLen
    requires PromptsAscend(batch, s, lo)
    ensures PromptsAscend(batch, InsertTurn(batch, x, s), lo)
  {
    if s != [] && batch[x].promptLen > batch[s[0]].promptLen {
      assert PromptsAscend(batch, s[1..], batch[s[0]].promptLen);
      InsertTurnOrders(batch, x, s[1..], batch[s[0]].promptLen);
      assert InsertTurn(batch, x, s) == [s[0]] + InsertTurn(batch, x, s[1..]);
    } else {
      assert InsertTurn(batch, x, s) == [x] + s;
    }
  }

  lemma {:induction false} ByPromptOrders(batch: seq<Turn>, idxs: seq<nat>)
    requires InBatch(batch, idxs)
    ensures PromptsAscend(batch, ByPrompt(batch, idxs), 0)
  {
    if idxs != [] {
      ByPromptOrders(batch, idxs[1..]);
      InsertTurnOrders(batch, idxs[0], ByPrompt(batch, idxs[1..]), 0);
    }
  }

  lemma TrajMembers(batch: seq<Turn>, traj: int)
    ensures var members := Grouping.Members(Labels(batch), Iota(|batch|), traj);
      Distinct(members) && forall x: nat :: x in members <==> x < |batch| && batch[x].traj == traj
  {
    var members := Grouping.Members(Labels(batch), Iota(|batch|), traj);
    Grouping.MembersDistinct(Labels(batch), Iota(|batch|), traj);
    forall x: nat
      ensures x in members <==> x < |batch| && batch[x].traj == traj
    {
      assert x < |batch| ==> Iota(|batch|)[x] == x;
    }
  }

  lemma ByPromptOk(batch: seq<Turn>, idxs: seq<nat>)
    requires InBatch(batch, idxs) && Distinct(idxs)
    ensures Distinct(ByPrompt(batch, idxs)) && PromptsAscend(batch, ByPrompt(batch, idxs), 0)
    ensures forall x :: x in ByPrompt(batch, idxs) <==> x in idxs
  {
    ByPromptOrders(batch, idxs);
    hide PromptsAscend;
    Permuted(idxs, ByPrompt(batch, idxs));
  }

  lemma OrderOk(batch: seq<Turn>, traj: int)
    ensures Ordered(batch, Order(batch, traj), traj)
    ensures forall x: nat :: x in Order(batch, traj) <==> x < |batch| && batch[x].traj == traj
  {
    hide ByPrompt, Grouping.Members;
    TrajMembers(batch, traj);
    ByPromptOk(batch, Grouping.Members(Labels(batch), Iota(|batch|), traj));
    var order := Order(batch, traj);
    assert forall i :: 0 <= i < |order| ==> order[i] in order;
  }

  ghost function DoneWith(batch: seq<Turn>, trajs: seq<int>): set<nat> {
    set x: nat | x < |batch| && batch[x].traj in trajs
  }

  lemma DoneGrows(batch: seq<Turn>, trajs: seq<int>, traj: int)
    ensures DoneWith(batch, trajs) + Elements(Order(batch, traj)) == DoneWith(batch, trajs + [traj])
  {
    OrderOk(batch, traj);
    hide Order, Ordered;
  }

  lemma LinkTrajOk(batch: seq<Turn>, trajs: seq<int>, traj: int, links: Links)
    requires traj !in trajs && LinksOk(batch, links, DoneWith(batch, trajs))
    ensures var order := Order(batch, traj);
      LinksOk(batch, LinkOrder(batch, order, |order|, links), DoneWith(batch, trajs + [traj]))
  {
    hide LinksOk, Order, LinkOrder, Ordered;
    var order := Order(batch, traj);
    OrderOk(batch, traj);
    assert forall i :: 0 <= i < |order| ==> order[i] in order;
    LinkOrderOk(batch, order, |order|, links, DoneWith(batch, trajs), traj);
    assert order[..|order|] == order;
    DoneGrows(batch, trajs, traj);
  }

  lemma NoLinksOk(batch: seq<Turn>, done: set<nat>)
    ensures LinksOk(batch, Links(map[], {}), done)
  {
  }

  lemma {:induction false} LinkTrajsOk(batch: seq<Turn>, trajs: seq<int>, n: nat)
    requires n <= |trajs| && Distinct(trajs)
    ensures LinksOk(batch, LinkTrajs(batch, trajs, n), DoneWith(batch, trajs[..n]))
  {
    hide LinksOk, Order, LinkOrder, DoneWith;
    if n == 0 {
      NoLinksOk(batch, DoneWith(batch, trajs[..0]));
    } else {
      LinkTrajsOk(batch, trajs, n - 1);
      assert trajs[n - 1] !in trajs[..n - 1];
      LinkTrajOk(batch, trajs[..n - 1], trajs[n - 1], LinkTrajs(batch, trajs, n - 1));
      assert trajs[..n] == trajs[..n - 1] + [trajs[n - 1]];
    }
  }

  /** No folded turn is a tail, and no turn is folded into two. */
  ghost predicate Separated(chains: map<nat, seq<nat>>) {
    && (forall k, x :: k in chains && x in chains[k] ==> x !in chains)
    && (forall k, l, x :: k in chains && l in chains && k != l && x in chains[k] ==> x !in chains[l])
  }

  /** The pack map holds vertex-disjoint chains, each inside one trajectory, in order of
      prompt length, each turn's tokens a prefix of the next one's. */
  lemma PackMapOk(batch: seq<Turn>)
    ensures Separated(PackMap(batch)) && AllChainsOk(batch, PackMap(batch))
  {
    var trajs := Grouping.Keys(Labels(batch), Iota(|batch|));
    LinkTrajsOk(batch, trajs, |trajs|);
  }

  // ----- Spans and tokens along a chain -----

  ghost predicate AllBuilt(batch: seq<Turn>, width: nat) {
    forall i :: 0 <= i < |batch| ==> Built(batch[i], width)
  }

  /** Consecutive turns of the chain share no response position. */
  ghost predicate CleanChain(batch: seq<Turn>, c: seq<nat>)
    requires ChainOk(batch, c)
  {
    forall i :: 0 <= i < |c| - 1 ==> Count(And(batch[c[i]].mask, batch[c[i + 1]].mask)) == 0
  }

  lemma CleanLink(a: Turn, b: Turn, width: nat)
    requires Built(a, width) && Built(b, width) && Linked(a, b)
    ensures Count(And(a.mask, b.mask)) == 0 <==> End(a) <= b.promptLen
  {
    if End(a) > b.promptLen {
      assert And(a.mask, b.mask)[b.promptLen];
      CountPositive(And(a.mask, b.mask), b.promptLen);
    } else {
      NoneCounted(And(a.mask, b.mask));
    }
  }

  /** Response spans along a clean chain follow one another, so they are disjoint. */
  lemma {:induction false} ChainSpans(batch: seq<Turn>, c: seq<nat>, width: nat, i: nat, j: nat)
    requires AllBuilt(batch, width) && ChainOk(batch, c) && CleanChain(batch, c)
    requires i < j < |c|
    ensures End(batch[c[i]]) <= batch[c[j]].promptLen
    decreases j - i
  {
    assert Linked(batch[c[i]], batch[c[i + 1]]);
    CleanLink(batch[c[i]], batch[c[i + 1]], width);
    if i + 1 < j {
      ChainSpans(batch, c, width, i + 1, j);
    }
  }

  /** Each member's tokens are a prefix of every later member's. */
  lemma {:induction false} ChainTokens(batch: seq<Turn>, c: seq<nat>, width: nat, i: nat, j: nat)
    requires AllBuilt(batch, width) && ChainOk(batch, c) && CleanChain(batch, c)
    requires i <= j < |c|
    ensures End(batch[c[i]]) <= End(batch[c[j]])
    ensures batch[c[i]].ids[..End(batch[c[i]])] == batch[c[j]].ids[..End(batch[c[i]])]
    decreases j - i
  {
    if i < j {
      var a, b := batch[c[i]], batch[c[i + 1]];
      assert Linked(a, b);
      CleanLink(a, b, width);
      ChainTokens(batch, c, width, i + 1, j);
      var d := batch[c[j]];
      assert b.ids[..End(a)] == b.ids[..End(b)][..End(a)] == d.ids[..End(b)][..End(a)] == d.ids[..End(a)];
    }
  }
}
