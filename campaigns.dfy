/** The client's mirror of one on-chain campaign, and the state names it
    shows for a campaign's lifecycle tag. */
module Campaigns {
  import opened Text

  /** What `campaigns(i)` returns: creator, title, description, goal, deadline,
      raised and the state tag (a `uint8`). Amounts are in wei, the deadline
      in seconds. */
  datatype Record = Record(
    creator: string,
    title: string,
    description: string,
    goal: nat,
    deadline: nat,
    raised: nat,
    state: nat)

  /** One entry of the campaign cache: the record read at index `id`. */
  datatype Campaign = Campaign(
    id: nat,
    creator: string,
    title: string,
    description: string,
    goal: nat,
    deadline: nat,
    raised: nat,
    state: nat)

  /** The cache entry built from the record read at index `i`. */
  function FromRecord(i: nat, r: Record): (c: Campaign)
    ensures c.id == i && c.state == r.state && c.deadline == r.deadline
  {
    Campaign(i, r.creator, r.title, r.description, r.goal, r.deadline, r.raised, r.state)
  }

  /** Lifecycle tags as the contract numbers them. */
  const SUBMITTED: nat := 0
  const ACTIVE: nat := 2
  const SUCCESSFUL: nat := 3
  const WITHDRAWN: nat := 5
  const REJECTED: nat := 6

  /** Display names of the lifecycle tags, indexed by tag. */
  const STATES: seq<string> :=
    ["Submitted", "Approved", "Active", "Successful", "Did not succeed", "Withdrawn", "Rejected"]

  /** `STATES[i] || "Unknown"`. */
  function StateLabel(state: nat): (r: string)
    ensures state < 7 ==> r == STATES[state]
    ensures state >= 7 ==> r == "Unknown"
  {
    if state < |STATES| then STATES[state] else "Unknown"
  }

  /** The badge's CSS class: the label lower-cased, each run of white space
      replaced by a dash. It holds neither white space nor upper-case letters. */
  function StateClass(state: nat): (r: string)
    ensures r != []
    ensures forall k :: 0 <= k < |r| ==> !IsSpace(r[k]) && !('A' <= r[k] <= 'Z')
  {
    LowerIdempotent(StateLabel(state));
    DashSpacesNoUpper(Lower(StateLabel(state)));
    DashSpaces(Lower(StateLabel(state)))
  }

  /** The two labels that only moderators see name exactly the tags 5 and 6. */
  lemma ClosedStateLabels(state: nat)
    ensures StateLabel(state) == "Withdrawn" <==> state == WITHDRAWN
    ensures StateLabel(state) == "Rejected" <==> state == REJECTED
  {
  }

  /** `Math.max(deadline - now, 0)`. */
  function SecondsLeft(deadline: nat, now: nat): (r: nat)
    ensures r > 0 <==> now < deadline
    ensures r > 0 ==> now + r == deadline
  {
    if deadline > now then deadline - now else 0
  }
}
