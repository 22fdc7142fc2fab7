/** The mute registry as a value: a map from user id to the second at which that
    user's mute ends, and the effect on it of each event the bot handles. */
module Registry {
  import opened Duration

  type UserId = int

  /** user id -> unmute instant, in whole seconds */
  type MuteMap = map<UserId, int>

  datatype Option<T> = None | Some(value: T)

  /** Why a moderation command was refused. */
  datatype Reason = NotModerator | InvalidDuration

  /** What handling one event reports back (the acknowledgment, or the message deletion). */
  datatype Outcome =
    | Rejected(reason: Reason)  // command aborted with a private error reply
    | Muted(expiry: int)        // temp_mute stored an entry ending at `expiry`
    | Unmuted                   // unmute removed an existing entry
    | NotMuted                  // unmute found no entry (informational, not an error)
    | Deleted                   // the author is muted: their message is deleted
    | Expired                   // the author's mute has run out: its entry is dropped
    | Ignored                   // nothing to do for this message

  /** The three things that act on the registry. Moderator status and the clock
      (`now`, in seconds) are inputs. */
  datatype Event =
    | TempMute(isModerator: bool, member: UserId, duration: int, unit: string, now: int)
    | Unmute(isModerator: bool, member: UserId)
    | Message(authorIsBot: bool, inGuild: bool, author: UserId, now: int)

  datatype Reply = Reply(outcome: Outcome, after: MuteMap)

  /** The one user whose entry an event may touch. */
  function Subject(e: Event): UserId {
    match e
    case TempMute(_, member, _, _, _) => member
    case Unmute(_, member) => member
    case Message(_, _, author, _) => author
  }

  /** `a` and `b` agree about user `k`: both lack an entry, or both have the same one. */
  predicate SameEntry(a: MuteMap, b: MuteMap, k: UserId) {
    (k in a <==> k in b) && (k in a ==> a[k] == b[k])
  }

  /** The message check's test of an entry. Python truthiness makes a stored 0 count
      as "not muted". */
  predicate HasLiveEntry(reg: MuteMap, u: UserId) {
    u in reg && reg[u] != 0
  }

  /** Handling one event: temp_mute, unmute, or the per-message check. */
  function Step(reg: MuteMap, e: Event): (r: Reply)
    // only the event's subject can gain, lose or change an entry
    ensures forall k :: k != Subject(e) ==> SameEntry(reg, r.after, k)
    // the outcome says exactly what happened to the registry
    ensures r.outcome.Rejected? || r.outcome.NotMuted? || r.outcome.Deleted? || r.outcome.Ignored?
            ==> r.after == reg
    ensures r.outcome.Muted? ==> r.after == reg[Subject(e) := r.outcome.expiry]
    ensures r.outcome.Unmuted? || r.outcome.Expired?
            ==> Subject(e) in reg && r.after == reg - {Subject(e)}
    // temp_mute
    ensures e.TempMute? ==> (r.outcome == Rejected(NotModerator) <==> !e.isModerator)
    ensures e.TempMute? && e.isModerator ==>
              (r.outcome == Rejected(InvalidDuration) <==> DurationToSeconds(e.duration, e.unit) <= 0)
    ensures e.TempMute? && r.outcome.Muted? ==> r.outcome.expiry > e.now
    ensures e.TempMute? && r.outcome.Muted? ==> r.outcome.expiry == e.now + DurationToSeconds(e.duration, e.unit)
    ensures e.TempMute? ==> r.outcome.Rejected? || r.outcome.Muted?
    // unmute
    ensures e.Unmute? ==> (r.outcome == Rejected(NotModerator) <==> !e.isModerator)
    ensures e.Unmute? && e.isModerator ==> (r.outcome == Unmuted <==> e.member in reg)
    ensures e.Unmute? ==> r.outcome.Rejected? || r.outcome.Unmuted? || r.outcome.NotMuted?
    ensures e.Unmute? ==> r.outcome != Rejected(InvalidDuration)
    // message
    ensures e.Message? ==> (r.outcome == Deleted <==>
              !e.authorIsBot && e.inGuild && HasLiveEntry(reg, e.author) && e.now < reg[e.author])
    ensures e.Message? ==> (r.outcome == Expired <==>
              !e.authorIsBot && e.inGuild && HasLiveEntry(reg, e.author) && reg[e.author] <= e.now)
    ensures e.Message? ==> r.outcome.Deleted? || r.outcome.Expired? || r.outcome.Ignored?
  {
    match e
    case TempMute(isModerator, member, duration, unit, now) =>
      if !isModerator then Reply(Rejected(NotModerator), reg)
      else
        var seconds := DurationToSeconds(duration, unit);
        if seconds <= 0 then Reply(Rejected(InvalidDuration), reg)
        else Reply(Muted(now + seconds), reg[member := now + seconds])
    case Unmute(isModerator, member) =>
      if !isModerator then Reply(Rejected(NotModerator), reg)
      else if member in reg then Reply(Unmuted, reg - {member})
      else Reply(NotMuted, reg)
    case Message(authorIsBot, inGuild, author, now) =>
      if authorIsBot || !inGuild then Reply(Ignored, reg)
      else if HasLiveEntry(reg, author) then
        if now < reg[author] then Reply(Deleted, reg)
        else Reply(Expired, reg - {author})
      else Reply(Ignored, reg)
  }

  /** The registry after handling `events` in order, starting from `reg`. */
  function Run(reg: MuteMap, events: seq<Event>): MuteMap
    decreases |events|
  {
    if events == [] then reg
    else Step(Run(reg, events[..|events| - 1]), events[|events| - 1]).after
  }

  /** Reference definition, read off the event history alone: the unmute instant set by
      the last successful mute of `u` that no successful unmute of `u` followed. */
  function LastMute(events: seq<Event>, u: UserId): Option<int>
    decreases |events|
  {
    if events == [] then None
    else
      var earlier := LastMute(events[..|events| - 1], u);
      match events[|events| - 1]
      case TempMute(isModerator, member, duration, unit, now) =>
        if member == u && isModerator && DurationToSeconds(duration, unit) > 0
        then Some(now + DurationToSeconds(duration, unit))
        else earlier
      case Unmute(isModerator, member) =>
        if member == u && isModerator then None else earlier
      case Message(_, _, _, _) => earlier
  }

  /** No message in `events` was handled later than instant `t`. */
  predicate MessagesNotAfter(events: seq<Event>, t: int) {
    forall i :: 0 <= i < |events| && events[i].Message? ==> events[i].now <= t
  }

  /** What the registry holds for `u` after `events` (from an empty registry) follows
      the history: an entry is the last surviving mute, and a surviving mute whose entry
      is gone was dropped because it had run out by the time of some message. */
  lemma {:induction false} RunTracksLastMute(events: seq<Event>, u: UserId, t: int)
    requires MessagesNotAfter(events, t)
    ensures u in Run(map[], events) ==> LastMute(events, u) == Some(Run(map[], events)[u])
    ensures u !in Run(map[], events) && LastMute(events, u).Some? ==> LastMute(events, u).value <= t
    decreases |events|
  {
    if events != [] {
      var prefix := events[..|events| - 1];
      assert MessagesNotAfter(prefix, t) by {
        forall i | 0 <= i < |prefix| && prefix[i].Message? ensures prefix[i].now <= t {
          assert prefix[i] == events[i];
        }
      }
      RunTracksLastMute(prefix, u, t);
      var e := events[|events| - 1];
      if e.Message? {
        assert events[|events| - 1].now <= t;
      }
    }
  }

  /** A message from `u` at instant `t`, no earlier than any message already handled,
      is deleted exactly when the last successful mute of `u` with no successful unmute
      after it ends later than `t`. Clock readings count seconds since the epoch, so `t`
      is not negative; that matters, since a stored 0 is not truthy and is never enforced. */
  lemma {:induction false} MessageDeletedIffMuteOutstanding(events: seq<Event>, u: UserId, t: int)
    requires 0 <= t && MessagesNotAfter(events, t)
    ensures Step(Run(map[], events), Message(false, true, u, t)).outcome == Deleted
            <==> LastMute(events, u).Some? && t < LastMute(events, u).value
  {
    RunTracksLastMute(events, u, t);
  }

  /** The events of `events` whose subject is `u`, in order. */
  function About(events: seq<Event>, u: UserId): (r: seq<Event>)
    ensures forall i :: 0 <= i < |r| ==> Subject(r[i]) == u
    decreases |events|
  {
    if events == [] then []
    else
      var e := events[|events| - 1];
      About(events[..|events| - 1], u) + (if Subject(e) == u then [e] else [])
  }

  /** An event's effect on its subject's entry depends only on that entry. */
  lemma StepIsLocal(a: MuteMap, b: MuteMap, e: Event)
    requires SameEntry(a, b, Subject(e))
    ensures SameEntry(Step(a, e).after, Step(b, e).after, Subject(e))
    ensures Step(a, e).outcome == Step(b, e).outcome
  {
  }

  /** Entries of users an event is not about survive the event unchanged, so the
      registry's view of `u` depends only on the events about `u`. */
  lemma {:induction false} RunDependsOnlyOnOwnEvents(reg: MuteMap, events: seq<Event>, u: UserId)
    ensures SameEntry(Run(reg, events), Run(reg, About(events, u)), u)
    decreases |events|
  {
    if events != [] {
      var prefix := events[..|events| - 1];
      var e := events[|events| - 1];
      RunDependsOnlyOnOwnEvents(reg, prefix, u);
      var own := About(prefix, u);
      if Subject(e) == u {
        assert About(events, u) == own + [e];
        assert (own + [e])[..|own + [e]| - 1] == own;
        StepIsLocal(Run(reg, prefix), Run(reg, own), e);
      } else {
        assert About(events, u) == own;
        assert SameEntry(Run(reg, prefix), Run(reg, events), u);
      }
    }
  }

  /** A successful mute replaces whatever an earlier mute of the same member stored. */
  lemma RemuteOverwrites(reg: MuteMap, first: Event, second: Event)
    requires first.TempMute? && second.TempMute? && first.member == second.member
    requires Step(reg, second).outcome.Muted?
    ensures Step(Step(reg, first).after, second).after == Step(reg, second).after
  {
  }

  /** Unmuting twice is unmuting once, and the repeat is reported as informational. */
  lemma UnmuteIdempotent(reg: MuteMap, e: Event)
    requires e.Unmute?
    ensures Step(Step(reg, e).after, e).after == Step(reg, e).after
    ensures e.isModerator ==> Step(Step(reg, e).after, e).outcome == NotMuted
  {
  }

  /** A stored unmute instant of 0 is not truthy, so the message check neither enforces
      nor drops it. */
  lemma ZeroEntryIgnoredByMessageCheck(reg: MuteMap, u: UserId, authorIsBot: bool, inGuild: bool, now: int)
    requires u in reg && reg[u] == 0
    ensures Step(reg, Message(authorIsBot, inGuild, u, now)) == Reply(Ignored, reg)
  {
  }

  /** Mute user 42 at t = 0 for one minute: a message at t = 30 is deleted, and a
      message at t = 61 finds the mute over and clears the entry. */
  lemma OneMinuteMuteScenario()
    ensures Step(Run(map[], [TempMute(true, 42, 1, "minutes", 0)]), Message(false, true, 42, 30)).outcome == Deleted
    ensures Step(Run(map[], [TempMute(true, 42, 1, "minutes", 0), Message(false, true, 42, 30)]),
                 Message(false, true, 42, 61)) == Reply(Expired, map[])
  {
    var once := [TempMute(true, 42, 1, "minutes", 0)];
    assert once[..0] == [];
    assert Run(map[], once) == map[42 := 60];
    var twice := once + [Message(false, true, 42, 30)];
    assert twice[..1] == once;
    assert Run(map[], twice) == map[42 := 60];
    assert map[42 := 60] - {42} == map[];
  }
}
