/** The one-second countdown tick, `updateCountdowns`: every countdown node
    drawn with a deadline gets its text rewritten in place, and a single forced
    refresh is asked for when some node reaches zero while not yet showing
    "Ended". Also `startCountdownTicker`, which ticks once and then schedules
    the tick unless a schedule already exists. */
module Countdown {
  import opened Wrappers
  import opened Text
  import opened Campaigns
  import opened CardPlan
  import opened CampaignCache

  /** A `.countdown[data-deadline]` node: its deadline attribute and its text. */
  datatype CountdownNode = CountdownNode(deadline: nat, text: string)

  const ENDED := "Ended"

  /** The text a node gets for the seconds left: it shows "Ended" exactly
      when no time is left. */
  function TickText(left: nat): (r: string)
    ensures Contains(r, ENDED) <==> left == 0
  {
    if left > 0 then
      CountdownTextNeverEnded(left);
      "Time left: " + NatToString(left) + " sec"
    else
      assert ENDED[..|ENDED|] == ENDED;
      ENDED
  }

  /** One node after a tick at `now`: same deadline, text for the seconds left. */
  function Ticked(node: CountdownNode, now: nat): CountdownNode {
    node.(text := TickText(SecondsLeft(node.deadline, now)))
  }

  /** All nodes after a tick at `now`. */
  function Tick(nodes: seq<CountdownNode>, now: nat): (r: seq<CountdownNode>)
    ensures |r| == |nodes|
    ensures forall i :: 0 <= i < |nodes| ==> r[i] == Ticked(nodes[i], now)
  {
    seq(|nodes|, i requires 0 <= i < |nodes| => Ticked(nodes[i], now))
  }

  /** The node has no time left and its text does not yet show "Ended": its
      deadline has passed and its text is anything but "Ended". */
  predicate JustEnded(node: CountdownNode, now: nat)
    ensures JustEnded(node, now) ==> node.deadline <= now && node.text != ENDED
  {
    assert ENDED[..|ENDED|] == ENDED;
    SecondsLeft(node.deadline, now) == 0 && !Contains(node.text, ENDED)
  }

  /** Some node just ended: the tick asks for one forced refresh. Then some
      node's deadline has passed; an empty page never asks. */
  predicate NeedsRefresh(nodes: seq<CountdownNode>, now: nat)
    ensures NeedsRefresh(nodes, now) ==> exists i :: 0 <= i < |nodes| && nodes[i].deadline <= now
  {
    exists i :: 0 <= i < |nodes| && JustEnded(nodes[i], now)
  }

  /** A "Time left" text never contains "Ended", whatever the number. */
  lemma CountdownTextNeverEnded(left: nat)
    ensures !Contains("Time left: " + NatToString(left) + " sec", ENDED)
  {
    var digits := NatToString(left);
    var t := "Time left: " + digits + " sec";
    forall k | 0 <= k < |t| ensures t[k] != 'E' {
      if k < 11 {
        assert t[k] == "Time left: "[k];
      } else if k < 11 + |digits| {
        assert t[k] == digits[k - 11];
      } else {
        assert t[k] == " sec"[k - 11 - |digits|];
      }
    }
    MissingFirstCharNotContained(t, ENDED);
  }

  /** Edge trigger: after a tick at `now1`, a later tick at `now2` asks for a
      refresh exactly when some node still had time left at `now1` and has
      none at `now2`. A node already showing "Ended" never asks again. */
  lemma TickEdgeTriggered(nodes: seq<CountdownNode>, now1: nat, now2: nat)
    ensures NeedsRefresh(Tick(nodes, now1), now2) ==>
      exists i :: 0 <= i < |nodes| && SecondsLeft(nodes[i].deadline, now1) > 0
                  && SecondsLeft(nodes[i].deadline, now2) == 0
    ensures now1 <= now2 ==>
      ((exists i :: 0 <= i < |nodes| && SecondsLeft(nodes[i].deadline, now1) > 0
                    && SecondsLeft(nodes[i].deadline, now2) == 0)
       ==> NeedsRefresh(Tick(nodes, now1), now2))
  {
    var ticked := Tick(nodes, now1);
    forall i | 0 <= i < |nodes|
      ensures JustEnded(ticked[i], now2) <==>
        SecondsLeft(nodes[i].deadline, now1) > 0 && SecondsLeft(nodes[i].deadline, now2) == 0
    {
      assert ticked[i].text == TickText(SecondsLeft(nodes[i].deadline, now1));
    }
    if NeedsRefresh(ticked, now2) {
      var i :| 0 <= i < |ticked| && JustEnded(ticked[i], now2);
    }
  }

  /** Ticking twice at the same instant, or once every node has ended,
      asks for no further refresh. */
  lemma TickSettles(nodes: seq<CountdownNode>, now1: nat, now2: nat)
    requires now2 == now1 || forall i :: 0 <= i < |nodes| ==> SecondsLeft(nodes[i].deadline, now1) == 0
    ensures !NeedsRefresh(Tick(nodes, now1), now2)
  {
    TickEdgeTriggered(nodes, now1, now2);
  }

  /** The countdown nodes a rendered view holds: the status lines of active
      campaigns with a deadline, as first drawn. "Pending approval" lines have
      no deadline attribute and are not selected. */
  function CountdownNodes(v: View): (r: seq<CountdownNode>)
    ensures v == NoCampaignsFound ==> r == []
    ensures forall k :: 0 <= k < |r| ==> !Contains(r[k].text, ENDED)
  {
    match v
    case NoCampaignsFound => []
    case CardList(cards) => NodesOf(cards)
  }

  /** The countdown nodes of a list of cards, in card order: at most one
      per card, and none drawn showing "Ended". */
  function NodesOf(cards: seq<Card>): (r: seq<CountdownNode>)
    ensures |r| <= |cards|
    ensures forall k :: 0 <= k < |r| ==> !Contains(r[k].text, ENDED)
    decreases |cards|
  {
    if cards == [] then []
    else
      var head :=
        if cards[0].status.TimeLeft? then
          CountdownTextNeverEnded(cards[0].status.seconds);
          [NodeOf(cards[0])]
        else [];
      head + NodesOf(cards[1..])
  }

  /** Every countdown card of the list contributes its node. */
  lemma {:induction false} NodesOfMember(cards: seq<Card>, card: Card)
    requires card in cards && card.status.TimeLeft?
    ensures NodeOf(card) in NodesOf(cards)
    decreases |cards|
  {
    if cards[0] != card {
      NodesOfMember(cards[1..], card);
    }
  }

  /** One card gives its node exactly when it shows a countdown; a
      "Pending approval" line or a card without status gives none. */
  lemma NodesOfSingle(card: Card)
    ensures NodesOf([card]) == if card.status.TimeLeft? then [NodeOf(card)] else []
  {
    assert [card][1..] == [];
  }

  /** Selection distributes over concatenation: with `NodesOfSingle` this fixes
      the nodes of any view as one per countdown card, in card order. */
  lemma {:induction false} NodesOfAppend(a: seq<Card>, b: seq<Card>)
    ensures NodesOf(a + b) == NodesOf(a) + NodesOf(b)
    decreases |a|
  {
    if a != [] {
      assert (a + b)[1..] == a[1..] + b;
      NodesOfAppend(a[1..], b);
    } else {
      assert a + b == b;
    }
  }

  /** Every selected node is the node of a countdown card of the list. */
  lemma {:induction false} NodesOfSound(cards: seq<Card>, k: nat)
    requires k < |NodesOf(cards)|
    ensures exists card :: card in cards && card.status.TimeLeft? && NodesOf(cards)[k] == NodeOf(card)
    decreases |cards|
  {
    if cards[0].status.TimeLeft? {
      if k > 0 {
        NodesOfSound(cards[1..], k - 1);
        var card :| card in cards[1..] && card.status.TimeLeft? && NodesOf(cards[1..])[k - 1] == NodeOf(card);
        assert card in cards;
      } else {
        assert cards[0] in cards;
      }
    } else {
      NodesOfSound(cards[1..], k);
      var card :| card in cards[1..] && card.status.TimeLeft? && NodesOf(cards[1..])[k] == NodeOf(card);
      assert card in cards;
    }
  }

  /** The node a card draws for its countdown. */
  function NodeOf(card: Card): CountdownNode
    requires card.status.TimeLeft?
  {
    CountdownNode(card.status.deadline, StatusText(card.status))
  }

  /** The card of an active campaign past its deadline draws a countdown node
      that a tick at any later time treats as just ended. */
  lemma ExpiredCardJustEnded(c: Campaign, role: string, user: string, now: nat, later: nat)
    requires c.state == ACTIVE && 0 < c.deadline <= now <= later
    ensures CardFor(c, role, user, now).status.TimeLeft?
    ensures JustEnded(NodeOf(CardFor(c, role, user, now)), later)
  {
    var st := StatusFor(c, now);
    assert st == TimeLeft(c.deadline, 0);
    CardForShape(c, role, user, now);
    var card := CardFor(c, role, user, now);
    assert card.status == st;
    var text := StatusText(st);
    assert text == "Time left: " + NatToString(0) + " sec";
    CountdownTextNeverEnded(0);
    assert NodeOf(card) == CountdownNode(c.deadline, text);
    assert SecondsLeft(c.deadline, later) == 0;
  }

  /** A re-render draws an expired countdown as "Time left: 0 sec", not as
      "Ended"; so the next tick after any re-render asks for a refresh again
      while a visible active campaign is past its deadline. */
  lemma RenderedExpiredCountdownRefreshes(
    cache: seq<Campaign>, role: string, user: string, now: nat, later: nat, j: nat)
    requires j < |cache| && Visible(role, cache[j])
    requires cache[j].state == ACTIVE && 0 < cache[j].deadline <= now && now <= later
    ensures NeedsRefresh(CountdownNodes(Render(cache, role, user, now)), later)
  {
    var cards := Cards(cache, role, user, now);
    var card := CardFor(cache[j], role, user, now);
    CardsComplete(cache, role, user, now);
    ExpiredCardJustEnded(cache[j], role, user, now, later);
    NodesOfMember(cards, card);
    RefreshOnMember(NodesOf(cards), NodeOf(card), later);
    assert Render(cache, role, user, now) == CardList(cards);
  }

  /** One just-ended node is enough for a refresh. */
  lemma RefreshOnMember(nodes: seq<CountdownNode>, node: CountdownNode, now: nat)
    requires node in nodes && JustEnded(node, now)
    ensures NeedsRefresh(nodes, now)
  {
    var i :| 0 <= i < |nodes| && nodes[i] == node;
  }

  /** `updateCountdowns` without the refresh it may start: rewrites every
      node's text and reports whether some node just ended. */
  method RewriteCountdowns(nodes: array<CountdownNode>, now: nat) returns (justEnded: bool)
    modifies nodes
    ensures nodes[..] == Tick(old(nodes[..]), now)
    ensures justEnded == NeedsRefresh(old(nodes[..]), now)
  {
    justEnded := false;
    var i := 0;
    while i < nodes.Length
      invariant 0 <= i <= nodes.Length
      invariant forall k :: 0 <= k < i ==> nodes[k] == Ticked(old(nodes[k]), now)
      invariant forall k :: i <= k < nodes.Length ==> nodes[k] == old(nodes[k])
      invariant justEnded <==> exists k :: 0 <= k < i && JustEnded(old(nodes[k]), now)
    {
      var node := nodes[i];
      var left := SecondsLeft(node.deadline, now);
      if left == 0 && !Contains(node.text, ENDED) {
        justEnded := true;
      }
      nodes[i] := node.(text := if left > 0 then "Time left: " + NatToString(left) + " sec" else ENDED);
      i := i + 1;
    }
  }

  /** `updateCountdowns`: the tick, then `loadCampaigns(true)` when some node
      just ended. */
  method UpdateCountdowns(client: CampaignClient, nodes: array<CountdownNode>, chain: ChainReads, now: nat)
    modifies client, nodes
    ensures nodes[..] == Tick(old(nodes[..]), now)
    ensures client.State() ==
      if NeedsRefresh(old(nodes[..]), now) then LoadStep(old(client.State()), client.session, true, chain, now)
      else old(client.State())
  {
    var justEnded := RewriteCountdowns(nodes, now);
    if justEnded {
      client.LoadCampaigns(true, chain, now);
    }
  }

  /** The ticker's schedule handle, `countdownIntervalId`. */
  class CountdownTicker {
    var intervalId: Option<nat>

    constructor ()
      ensures intervalId == None
    {
      intervalId := None;
    }

    /** `startCountdownTicker`: a no-op once a schedule exists; otherwise one
        tick now and the schedule recorded under `timer`. */
    method Start(client: CampaignClient, nodes: array<CountdownNode>, chain: ChainReads, now: nat, timer: nat)
      modifies this, client, nodes
      ensures old(intervalId).Some? ==>
        intervalId == old(intervalId) && nodes[..] == old(nodes[..]) && client.State() == old(client.State())
      ensures old(intervalId).None? ==>
        && intervalId == Some(timer)
        && nodes[..] == Tick(old(nodes[..]), now)
        && client.State() ==
           if NeedsRefresh(old(nodes[..]), now) then LoadStep(old(client.State()), client.session, true, chain, now)
           else old(client.State())
    {
      if intervalId.Some? {
        return;
      }
      UpdateCountdowns(client, nodes, chain, now);
      intervalId := Some(timer);
    }
  }
}
