/**
 * The list logic of the challenges page: the three tabs (active, available,
 * completed) filtered from the fetched list for the signed-in user, and the
 * local list updates after a join or a completion.
 *
 * Values the page reads may be `undefined` in JavaScript (`user?.id`, a
 * challenge's `id`), so they are `Ref`s; strict equality on them is equality
 * of `Ref`s, and `undefined === undefined` holds.
 */
module ChallengesPage {
  import opened Records

  /** A JavaScript string value that may be `undefined`. */
  type Ref = Option<string>

  /** A challenge as the page holds it. `completedBy` is read by the page; the stored challenge has no such field. */
  datatype ClientChallenge = ClientChallenge(
    id: Ref,
    title: string,
    description: string,
    rewardPoints: Option<int>,
    participants: seq<Ref>,
    completedBy: seq<Ref>)

  /** `Array.prototype.filter`. */
  function Filter(cs: seq<ClientChallenge>, keep: ClientChallenge -> bool): (r: seq<ClientChallenge>)
    ensures forall c :: c in r <==> c in cs && keep(c)
    ensures forall c :: multiset(r)[c] == (if keep(c) then multiset(cs)[c] else 0)
    ensures IsSubsequence(r, cs)
  {
    if cs == [] then []
    else
      var rest := Filter(cs[1..], keep);
      assert cs == [cs[0]] + cs[1..];
      if keep(cs[0]) then
        assert ([cs[0]] + rest)[1..] == rest;
        [cs[0]] + rest
      else rest
  }

  /** Joined and not completed by `me`. */
  predicate IsActive(c: ClientChallenge, me: Ref) {
    me in c.participants && me !in c.completedBy
  }

  /** Not joined by `me`. */
  predicate IsAvailable(c: ClientChallenge, me: Ref) {
    me !in c.participants
  }

  /** Completed by `me`. */
  predicate IsCompleted(c: ClientChallenge, me: Ref) {
    me in c.completedBy
  }

  /** `activeChallenges`: the challenges `me` joined and has not completed, in list order. */
  function Active(cs: seq<ClientChallenge>, me: Ref): (r: seq<ClientChallenge>)
    ensures forall c :: c in r <==> c in cs && me in c.participants && me !in c.completedBy
    ensures forall c :: multiset(r)[c] == (if me in c.participants && me !in c.completedBy then multiset(cs)[c] else 0)
    ensures IsSubsequence(r, cs)
  {
    Filter(cs, c => IsActive(c, me))
  }

  /** `availableChallenges`: the challenges `me` has not joined, in list order. */
  function Available(cs: seq<ClientChallenge>, me: Ref): (r: seq<ClientChallenge>)
    ensures forall c :: c in r <==> c in cs && me !in c.participants
    ensures forall c :: multiset(r)[c] == (if me !in c.participants then multiset(cs)[c] else 0)
    ensures IsSubsequence(r, cs)
  {
    Filter(cs, c => IsAvailable(c, me))
  }

  /** `completedChallenges`: the challenges `me` completed, in list order. */
  function Completed(cs: seq<ClientChallenge>, me: Ref): (r: seq<ClientChallenge>)
    ensures forall c :: c in r <==> c in cs && me in c.completedBy
    ensures forall c :: multiset(r)[c] == (if me in c.completedBy then multiset(cs)[c] else 0)
    ensures IsSubsequence(r, cs)
  {
    Filter(cs, c => IsCompleted(c, me))
  }

  /**
   * Active and available never share a challenge, nor do active and
   * completed; every challenge is on at least one of the three tabs, and the
   * ones joined and completed are on the completed tab only.
   */
  lemma TabsPartition(cs: seq<ClientChallenge>, me: Ref)
    ensures forall c :: c in Active(cs, me) ==> c !in Available(cs, me) && c !in Completed(cs, me)
    ensures forall c :: c in cs ==> c in Active(cs, me) || c in Available(cs, me) || c in Completed(cs, me)
    ensures forall c :: c in cs && me in c.participants && me in c.completedBy ==>
      c !in Active(cs, me) && c !in Available(cs, me) && c in Completed(cs, me)
  {
  }

  /** A challenge completed without being joined is listed both as available and as completed. */
  lemma CompletedMayBeAvailable(me: Ref)
    ensures var c := ClientChallenge(Some("c1"), "Bike week", "", Some(10), [], [me]);
      c in Available([c], me) && c in Completed([c], me)
  {
    var c := ClientChallenge(Some("c1"), "Bike week", "", Some(10), [], [me]);
    assert c in [c];
  }

  /**
   * The list after `handleJoinChallenge(target)`. Signed out, or when the
   * request fails, the list stays as it was. Otherwise each challenge whose
   * `id` equals `target` gets `me` appended to its participants (a plain
   * append, so a repeated join lists `me` twice); every other challenge, the
   * order and the length stay.
   */
  function AfterJoin(cs: seq<ClientChallenge>, signedIn: bool, apiOk: bool, me: Ref, target: Ref): (r: seq<ClientChallenge>)
    ensures !(signedIn && apiOk) ==> r == cs
    ensures |r| == |cs|
    ensures forall i :: 0 <= i < |cs| && !(signedIn && apiOk && cs[i].id == target) ==> r[i] == cs[i]
    ensures forall i :: 0 <= i < |cs| && signedIn && apiOk && cs[i].id == target ==>
      && r[i] == cs[i].(participants := r[i].participants)
      && multiset(r[i].participants)[me] == multiset(cs[i].participants)[me] + 1
      && cs[i].participants <= r[i].participants && |r[i].participants| == |cs[i].participants| + 1
  {
    if !(signedIn && apiOk) then cs
    else
      seq(|cs|, i requires 0 <= i < |cs| =>
        if cs[i].id == target then cs[i].(participants := cs[i].participants + [me]) else cs[i])
  }

  /**
   * The list after `handleCompleteChallenge(target)`: as for a join, but `me`
   * is appended to `completedBy`.
   */
  function AfterComplete(cs: seq<ClientChallenge>, signedIn: bool, apiOk: bool, me: Ref, target: Ref): (r: seq<ClientChallenge>)
    ensures !(signedIn && apiOk) ==> r == cs
    ensures |r| == |cs|
    ensures forall i :: 0 <= i < |cs| && !(signedIn && apiOk && cs[i].id == target) ==> r[i] == cs[i]
    ensures forall i :: 0 <= i < |cs| && signedIn && apiOk && cs[i].id == target ==>
      && r[i] == cs[i].(completedBy := r[i].completedBy)
      && multiset(r[i].completedBy)[me] == multiset(cs[i].completedBy)[me] + 1
      && cs[i].completedBy <= r[i].completedBy && |r[i].completedBy| == |cs[i].completedBy| + 1
  {
    if !(signedIn && apiOk) then cs
    else
      seq(|cs|, i requires 0 <= i < |cs| =>
        if cs[i].id == target then cs[i].(completedBy := cs[i].completedBy + [me]) else cs[i])
  }

  /** A successful join puts the challenge on the active tab unless `me` already completed it, and takes it off the available tab. */
  lemma JoinMovesToActive(cs: seq<ClientChallenge>, me: Ref, target: Ref, i: nat)
    requires i < |cs| && cs[i].id == target
    ensures var r := AfterJoin(cs, true, true, me, target);
      && r[i] !in Available(r, me)
      && (me !in cs[i].completedBy ==> r[i] in Active(r, me))
  {
    var r := AfterJoin(cs, true, true, me, target);
    assert r[i] in r;
    assert me in multiset(r[i].participants);
  }

  /** A successful completion takes the challenge off the active tab and puts it on the completed tab. */
  lemma CompleteMovesToCompleted(cs: seq<ClientChallenge>, me: Ref, target: Ref, i: nat)
    requires i < |cs| && cs[i].id == target
    ensures var r := AfterComplete(cs, true, true, me, target);
      r[i] !in Active(r, me) && r[i] in Completed(r, me)
  {
    var r := AfterComplete(cs, true, true, me, target);
    assert r[i] in r;
    assert me in multiset(r[i].completedBy);
  }

  /**
   * When the fetched challenges carry no `id` (the stored ones expose `_id`)
   * and the handler is given that missing id, a join, if its request
   * succeeded, would append `me` to every challenge's participants. Against
   * the backend the request fails instead (`undefined` is not a valid
   * challenge id, so the server answers 500), and the list stays as it was:
   * the `apiOk = false` case of `AfterJoin`.
   */
  lemma JoinWithoutIdsTouchesAll(cs: seq<ClientChallenge>, me: Ref)
    requires forall c :: c in cs ==> c.id == None
    ensures var r := AfterJoin(cs, true, true, me, None);
      forall i :: 0 <= i < |cs| ==> r[i].participants == cs[i].participants + [me]
  {
    var r := AfterJoin(cs, true, true, me, None);
    forall i | 0 <= i < |cs| ensures r[i].participants == cs[i].participants + [me] {
      assert cs[i] in cs;
    }
  }
}
