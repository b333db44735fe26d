/** Finding the user of an authID (protocol/vmess/vmess.py:604-630): the branch of decode_request that
    searches all registered users, with its time window and its replay filter. */
module AuthId {
  import opened Bytes
  import opened VMessCrypto
  import ReplayFilter

  type Uuid = string

  /** An entry of _keys, in the order of registration. */
  datatype User = User(cmdKey: bytes, uuid: Uuid)

  const TOLERANCE: int := 120
  const WINDOW: nat := 120

  /** The user's key opens the authID, and the time inside is near enough. */
  predicate Fits(su: Suite, u: User, authId: bytes, now: int) {
    var t := su.authTime(u.cmdKey, authId);
    t.Some? && t.value >= 0 && -TOLERANCE <= t.value - now <= TOLERANCE
  }

  /** An authID that holds the time t fits from 120 seconds before t to 120 seconds after it, and a negative
      time or another key never. */
  lemma FitsWithinTwoMinutes(su: Suite, u: User, authId: bytes, now: int)
    ensures Fits(su, u, authId, now) <==>
      su.authTime(u.cmdKey, authId).Some? &&
      var t := su.authTime(u.cmdKey, authId).value;
      t >= 0 && t - 120 <= now <= t + 120
  {
  }

  function FirstMatch(su: Suite, users: seq<User>, authId: bytes, now: int): (r: Option<User>)
    ensures r.Some? ==> r.value in users && Fits(su, r.value, authId, now)
    ensures r.None? <==> forall u :: u in users ==> !Fits(su, u, authId, now)
  {
    if users == [] then None
    else if Fits(su, users[0], authId, now) then Some(users[0])
    else FirstMatch(su, users[1..], authId, now)
  }

  /** Replayed is the VMessAuthError of the filter. */
  datatype Answer = Unknown | Replayed | Matched(user: User)

  /** The answer, after the authIDs accepted so far. */
  function MatchOf(su: Suite, users: seq<User>, accepted: seq<bytes>, authId: bytes, now: int): Answer {
    var u := FirstMatch(su, users, authId, now);
    if u.None? then Unknown
    else if authId in ReplayFilter.Tail(accepted, WINDOW) then Replayed
    else Matched(u.value)
  }

  /** An authID that was accepted, and has been followed by other accepted ones, is refused as a replay if
      and only if these are fewer than the window holds. */
  lemma RefusedExactlyWithinTheWindow(su: Suite, users: seq<User>, before: seq<bytes>, authId: bytes,
                                      more: seq<bytes>, now: int)
    requires FirstMatch(su, users, authId, now).Some? && authId !in more
    ensures MatchOf(su, users, before + [authId] + more, authId, now) == Replayed <==> |more| < 120
  {
    var accepted := before + [authId] + more;
    var tail := ReplayFilter.Tail(accepted, WINDOW);
    if |more| < WINDOW {
      var k: int := |tail| - |more| - 1;
      assert tail[k] == accepted[|before|] == authId;
    } else {
      assert tail == accepted[|accepted| - WINDOW..];
      assert forall k :: 0 <= k < |tail| ==> tail[k] == more[|more| - WINDOW + k];
    }
  }

  class Validator {
    const su: Suite
    var users: seq<User>
    const replay: ReplayFilter.Filter

    ghost predicate Valid()
      reads this, replay
    {
      replay.Valid() && replay.size == WINDOW
    }

    constructor (su: Suite)
      ensures Valid() && this.su == su && users == [] && replay.accepted == [] && fresh(replay)
    {
      this.su := su;
      users := [];
      replay := new ReplayFilter.Filter(120);
    }

    /** The filter is asked only once a user was found, and remembers the authID if it is new. */
    method Match(authId: bytes, now: int) returns (r: Answer)
      requires Valid()
      modifies replay
      ensures Valid()
      ensures r == MatchOf(su, users, old(replay.accepted), authId, now)
      ensures replay.accepted == old(replay.accepted) + if r.Matched? then [authId] else []
    {
      var i := 0;
      while i < |users|
        invariant i <= |users| && replay.accepted == old(replay.accepted) && Valid()
        invariant FirstMatch(su, users, authId, now) == FirstMatch(su, users[i..], authId, now)
      {
        var t := su.authTime(users[i].cmdKey, authId);
        if t.Some? && t.value >= 0 && -TOLERANCE <= t.value - now <= TOLERANCE {
          var isNew := replay.CheckAndAdd(authId);
          return if isNew then Matched(users[i]) else Replayed;
        }
        assert users[i..][1..] == users[i + 1..];
        i := i + 1;
      }
      assert replay.accepted + [] == replay.accepted;
      return Unknown;
    }
  }
}
