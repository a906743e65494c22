/** What `renderCampaigns` draws, as a value: one card per cached campaign the
    current role may see, each with its badge, its status line and its row of
    action buttons. Rendering is a pure function of the cache, the role, the
    connected address and the clock. */
module CardPlan {
  import opened Wrappers
  import opened Text
  import opened Campaigns

  /** Roles a session can pick at login. */
  const MODERATOR := "moderator"
  const CREATOR := "creator"
  const CONTRIBUTOR := "contributor"

  /** The buttons a card can carry; `Contribute` comes with its amount input. */
  datatype Action = Approve | Reject | Contribute | Withdraw | Finalize | ViewContributors

  /** The card's status line: nothing, "Pending approval", or a countdown node
      that carries its deadline and the seconds left when drawn. */
  datatype Status = NoStatus | PendingApproval | TimeLeft(deadline: nat, seconds: nat)

  /** One campaign card. `title` and `description` are placed as plain text,
      never parsed as markup. */
  datatype Card = Card(
    id: nat,
    title: string,
    description: Option<string>,
    badge: string,
    badgeClass: string,
    status: Status,
    actions: seq<Action>)

  /** The campaigns container: the empty-state message, or the list of cards. */
  datatype View = NoCampaignsFound | CardList(cards: seq<Card>)

  /** Only moderators see rejected and withdrawn campaigns: a moderator sees
      every campaign, and a hidden one is labelled "Withdrawn" or "Rejected". */
  predicate Visible(role: string, c: Campaign)
    ensures role == MODERATOR ==> Visible(role, c)
    ensures !Visible(role, c) ==> StateLabel(c.state) == "Withdrawn" || StateLabel(c.state) == "Rejected"
  {
    ClosedStateLabels(c.state);
    role == MODERATOR || (c.state != WITHDRAWN && c.state != REJECTED)
  }

  /** The status line: pending approval for a submitted campaign, a countdown
      for an active one with a deadline, nothing otherwise. */
  function StatusFor(c: Campaign, now: nat): (r: Status)
    ensures r == PendingApproval <==> c.state == SUBMITTED
    ensures r.TimeLeft? <==> c.state == ACTIVE && c.deadline > 0
    ensures r.TimeLeft? ==> r.deadline == c.deadline && r.seconds == SecondsLeft(c.deadline, now)
  {
    if c.state == SUBMITTED then PendingApproval
    else if c.state == ACTIVE && c.deadline > 0 then TimeLeft(c.deadline, SecondsLeft(c.deadline, now))
    else NoStatus
  }

  /** The text of the status line as first drawn: empty exactly when there
      is no status. */
  function StatusText(st: Status): (r: string)
    ensures r == [] <==> st == NoStatus
  {
    match st
    case NoStatus => ""
    case PendingApproval => "Pending approval"
    case TimeLeft(_, seconds) => "Time left: " + NatToString(seconds) + " sec"
  }

  /** The creator check for Withdraw: both addresses lower-cased. The two
      addresses agree character by character up to ASCII case. */
  predicate SameAddress(a: string, b: string)
    ensures SameAddress(a, b) <==> |a| == |b| && forall k :: 0 <= k < |a| ==> LowerChar(a[k]) == LowerChar(b[k])
  {
    Lower(a) == Lower(b)
  }

  /** The card's buttons, in the order they are appended: View Contributors
      always comes last, and Contribute and Finalize never come together. */
  function Actions(c: Campaign, role: string, user: string, now: nat): (r: seq<Action>)
    ensures r != [] && r[|r| - 1] == ViewContributors
    ensures !(Contribute in r && Finalize in r)
  {
    (if role == MODERATOR && c.state == SUBMITTED then [Approve, Reject] else [])
    + (if role == CONTRIBUTOR && c.state == ACTIVE && c.deadline > 0 && now < c.deadline
       then [Contribute] else [])
    + (if role == CREATOR && c.state == SUCCESSFUL && SameAddress(c.creator, user)
       then [Withdraw] else [])
    + (if c.state == ACTIVE && now >= c.deadline then [Finalize] else [])
    + [ViewContributors]
  }

  /** Each control is gated by role and state as below; every card ends with
      View Contributors, Contribute and Finalize never share a card, and no
      button appears twice. */
  lemma ActionsGating(c: Campaign, role: string, user: string, now: nat)
    ensures var r := Actions(c, role, user, now);
      && (Approve in r <==> role == MODERATOR && c.state == SUBMITTED)
      && (Reject in r <==> role == MODERATOR && c.state == SUBMITTED)
      && (Contribute in r <==> role == CONTRIBUTOR && c.state == ACTIVE && c.deadline > 0 && now < c.deadline)
      && (Withdraw in r <==> role == CREATOR && c.state == SUCCESSFUL && SameAddress(c.creator, user))
      && (Finalize in r <==> c.state == ACTIVE && now >= c.deadline)
      && r != [] && r[|r| - 1] == ViewContributors
      && !(Contribute in r && Finalize in r)
      && (forall i, j :: 0 <= i < j < |r| ==> r[i] != r[j])
  {
  }

  /** The card drawn for one campaign: it carries the campaign's id and
      title, and a description paragraph exactly when the description holds
      something besides white space. */
  function CardFor(c: Campaign, role: string, user: string, now: nat): (r: Card)
    ensures r.id == c.id && r.title == c.title
    ensures r.description.Some? <==> !Blank(c.description)
  {
    TrimEmptyIffBlank(c.description);
    Card(c.id, c.title,
         if Trim(c.description) != [] then Some(c.description) else None,
         StateLabel(c.state), StateClass(c.state),
         StatusFor(c, now), Actions(c, role, user, now))
  }

  /** A card shows its campaign's id, title, state label and class, status
      line and buttons; the description paragraph appears, unchanged, only
      when the description holds something besides white space. */
  lemma CardForShape(c: Campaign, role: string, user: string, now: nat)
    ensures var card := CardFor(c, role, user, now);
      && card.id == c.id && card.title == c.title
      && card.badge == StateLabel(c.state) && card.badgeClass == StateClass(c.state)
      && (card.description.Some? <==> !Blank(c.description))
      && (card.description.Some? ==> card.description.value == c.description)
      && card.status == StatusFor(c, now) && card.actions == Actions(c, role, user, now)
  {
    TrimEmptyIffBlank(c.description);
  }

  /** The campaigns `renderCampaigns` draws, in cache order: it skips the
      ones the role may not see. */
  function Shown(cache: seq<Campaign>, role: string): (r: seq<Campaign>)
    ensures |r| <= |cache|
    ensures forall k :: 0 <= k < |r| ==> Visible(role, r[k])
    decreases |cache|
  {
    if cache == [] then []
    else (if Visible(role, cache[0]) then [cache[0]] else []) + Shown(cache[1..], role)
  }

  /** Only campaigns of the cache that the role may see are drawn. */
  lemma {:induction false} ShownSound(cache: seq<Campaign>, role: string)
    ensures forall c :: c in Shown(cache, role) ==> c in cache && Visible(role, c)
    decreases |cache|
  {
    if cache != [] {
      ShownSound(cache[1..], role);
    }
  }

  /** Every campaign of the cache that the role may see is drawn. */
  lemma {:induction false} ShownComplete(cache: seq<Campaign>, role: string)
    ensures forall j :: 0 <= j < |cache| && Visible(role, cache[j]) ==> cache[j] in Shown(cache, role)
    decreases |cache|
  {
    if cache != [] {
      ShownComplete(cache[1..], role);
      forall j | 0 <= j < |cache| && Visible(role, cache[j])
        ensures cache[j] in Shown(cache, role)
      {
        if j > 0 {
          assert cache[j] == cache[1..][j - 1];
        }
      }
    }
  }

  /** Drawing a cache made of two parts draws the first part's visible
      campaigns, then the second's: the filter keeps cache order and draws
      each visible entry once. */
  lemma {:induction false} ShownAppend(a: seq<Campaign>, b: seq<Campaign>, role: string)
    ensures Shown(a + b, role) == Shown(a, role) + Shown(b, role)
    decreases |a|
  {
    if a == [] {
      assert a + b == b;
    } else {
      var t := a[1..] + b;
      var head := if Visible(role, a[0]) then [a[0]] else [];
      assert Shown(a + b, role) == head + Shown(t, role) by {
        assert (a + b)[0] == a[0] && (a + b)[1..] == t;
      }
      assert Shown(t, role) == Shown(a[1..], role) + Shown(b, role) by {
        ShownAppend(a[1..], b, role);
      }
      assert Shown(a, role) == head + Shown(a[1..], role);
      assert head + (Shown(a[1..], role) + Shown(b, role)) == (head + Shown(a[1..], role)) + Shown(b, role);
    }
  }

  /** One campaign is drawn exactly when the role may see it. */
  lemma ShownSingle(c: Campaign, role: string)
    ensures Shown([c], role) == if Visible(role, c) then [c] else []
  {
    assert [c][1..] == [];
  }

  /** A role that may see every cached campaign gets the whole cache. */
  lemma {:induction false} ShownEverything(cache: seq<Campaign>, role: string)
    requires forall j :: 0 <= j < |cache| ==> Visible(role, cache[j])
    ensures Shown(cache, role) == cache
    decreases |cache|
  {
    if cache != [] {
      assert forall j :: 0 <= j < |cache[1..]| ==> cache[1..][j] == cache[j + 1];
      ShownEverything(cache[1..], role);
      assert Shown(cache, role) == [cache[0]] + cache[1..];
    }
  }

  /** `f` applied to every element, in order. */
  function Map<A, B>(s: seq<A>, f: A -> B): (r: seq<B>)
    ensures |r| == |s|
    ensures forall i :: 0 <= i < |s| ==> r[i] == f(s[i])
    decreases |s|
  {
    if s == [] then [] else [f(s[0])] + Map(s[1..], f)
  }

  /** The cards for the cache: one per shown campaign, in the same order. */
  function Cards(cache: seq<Campaign>, role: string, user: string, now: nat): (r: seq<Card>)
    ensures |r| == |Shown(cache, role)|
    ensures forall i :: 0 <= i < |r| ==> r[i] == CardFor(Shown(cache, role)[i], role, user, now)
  {
    Map(Shown(cache, role), c => CardFor(c, role, user, now))
  }

  /** `renderCampaigns`: the empty-state message for an empty cache, the
      cards otherwise (an empty list when every campaign is hidden). */
  function Render(cache: seq<Campaign>, role: string, user: string, now: nat): (v: View)
    ensures v == NoCampaignsFound <==> cache == []
    ensures cache != [] ==> v == CardList(Cards(cache, role, user, now))
  {
    if cache == [] then NoCampaignsFound else CardList(Cards(cache, role, user, now))
  }

  /** `card` is the card of some campaign of `cache` that `role` may see. */
  predicate DrawnFrom(card: Card, cache: seq<Campaign>, role: string, user: string, now: nat) {
    exists j :: 0 <= j < |cache| && Visible(role, cache[j]) && card == CardFor(cache[j], role, user, now)
  }

  lemma DrawnFromIndex(card: Card, cache: seq<Campaign>, role: string, user: string, now: nat, j: nat)
    requires j < |cache| && Visible(role, cache[j]) && card == CardFor(cache[j], role, user, now)
    ensures DrawnFrom(card, cache, role, user, now)
  {
  }

  /** The card at position `i` is drawn from a campaign of the cache that
      the role may see. */
  lemma CardAtDrawn(cache: seq<Campaign>, role: string, user: string, now: nat, i: nat)
    requires i < |Cards(cache, role, user, now)|
    ensures DrawnFrom(Cards(cache, role, user, now)[i], cache, role, user, now)
  {
    var shown := Shown(cache, role);
    var c := shown[i];
    assert c in cache && Visible(role, c) by {
      ShownSound(cache, role);
      assert c in shown;
    }
    var j :| 0 <= j < |cache| && cache[j] == c;
    DrawnFromIndex(Cards(cache, role, user, now)[i], cache, role, user, now, j);
  }

  /** Every card is drawn from a campaign of the cache that the role may see. */
  lemma CardsSound(cache: seq<Campaign>, role: string, user: string, now: nat)
    ensures forall card :: card in Cards(cache, role, user, now) ==> DrawnFrom(card, cache, role, user, now)
  {
    var cards := Cards(cache, role, user, now);
    forall card | card in cards
      ensures DrawnFrom(card, cache, role, user, now)
    {
      var i :| 0 <= i < |cards| && cards[i] == card;
      CardAtDrawn(cache, role, user, now, i);
    }
  }

  /** Every campaign of the cache that the role may see gets its card. */
  lemma CardsComplete(cache: seq<Campaign>, role: string, user: string, now: nat)
    ensures forall j :: 0 <= j < |cache| && Visible(role, cache[j]) ==>
      CardFor(cache[j], role, user, now) in Cards(cache, role, user, now)
  {
    var shown := Shown(cache, role);
    var cards := Cards(cache, role, user, now);
    ShownComplete(cache, role);
    forall j | 0 <= j < |cache| && Visible(role, cache[j])
      ensures CardFor(cache[j], role, user, now) in cards
    {
      var i :| 0 <= i < |shown| && shown[i] == cache[j];
      assert cards[i] == CardFor(cache[j], role, user, now);
    }
  }

  /** A moderator gets one card per cached campaign, in cache order. */
  lemma ModeratorSeesEveryCampaign(cache: seq<Campaign>, user: string, now: nat)
    ensures |Cards(cache, MODERATOR, user, now)| == |cache|
    ensures forall j :: 0 <= j < |cache| ==>
      Cards(cache, MODERATOR, user, now)[j] == CardFor(cache[j], MODERATOR, user, now)
  {
    ShownEverything(cache, MODERATOR);
  }

  /** No two cached campaigns share an id (true of every list the cache loads). */
  predicate UniqueIds(cache: seq<Campaign>) {
    forall i, j :: 0 <= i < j < |cache| ==> cache[i].id != cache[j].id
  }

  /** Any other role never gets a card for a withdrawn or rejected campaign:
      no card carries those labels, and when ids are unique no card carries
      the id of such a campaign. */
  lemma NonModeratorNeverSeesClosed(cache: seq<Campaign>, role: string, user: string, now: nat)
    requires role != MODERATOR
    ensures forall card :: card in Cards(cache, role, user, now) ==>
      card.badge != "Withdrawn" && card.badge != "Rejected"
    ensures UniqueIds(cache) ==>
      forall j, card :: 0 <= j < |cache| && !Visible(role, cache[j]) && card in Cards(cache, role, user, now) ==>
        card.id != cache[j].id
  {
    CardsSound(cache, role, user, now);
    forall card | card in Cards(cache, role, user, now)
      ensures card.badge != "Withdrawn" && card.badge != "Rejected"
      ensures UniqueIds(cache) ==> forall j :: 0 <= j < |cache| && !Visible(role, cache[j]) ==> card.id != cache[j].id
    {
      var k :| 0 <= k < |cache| && Visible(role, cache[k]) && card == CardFor(cache[k], role, user, now);
      CardForShape(cache[k], role, user, now);
      ClosedStateLabels(cache[k].state);
    }
  }

  /** Across a whole rendered view: no card offers both Contribute and
      Finalize, every card offers View Contributors, and only a moderator's
      cards offer Approve or Reject. */
  lemma ViewControlsExclusive(cache: seq<Campaign>, role: string, user: string, now: nat)
    ensures forall card :: card in Cards(cache, role, user, now) ==>
      !(Contribute in card.actions && Finalize in card.actions)
      && ViewContributors in card.actions
      && (Approve in card.actions || Reject in card.actions ==> role == MODERATOR)
  {
    CardsSound(cache, role, user, now);
    forall card | card in Cards(cache, role, user, now)
      ensures !(Contribute in card.actions && Finalize in card.actions)
      ensures ViewContributors in card.actions
      ensures Approve in card.actions || Reject in card.actions ==> role == MODERATOR
    {
      var k :| 0 <= k < |cache| && Visible(role, cache[k]) && card == CardFor(cache[k], role, user, now);
      CardForShape(cache[k], role, user, now);
      ActionsGating(cache[k], role, user, now);
    }
  }
}
