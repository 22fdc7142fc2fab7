/** The bot's mute registry as the object that owns it and the three handlers that
    change it in place. Each handler's new state and reply are those of `Registry.Step`
    for the corresponding event, so everything proved there holds of the bot. */
module Bot {
  import opened Duration
  import opened Registry

  class HyperOSBot {
    /** user id -> unmute instant (seconds); held only in memory */
    var mutedUsers: MuteMap

    constructor ()
      ensures mutedUsers == map[]
    {
      mutedUsers := map[];
    }

    /** The temp_mute command. The caller's moderator status and the clock are inputs. */
    method TempMute(isModerator: bool, member: UserId, duration: int, unit: string, now: int)
      returns (outcome: Outcome)
      modifies this
      ensures Step(old(mutedUsers), Event.TempMute(isModerator, member, duration, unit, now))
              == Reply(outcome, mutedUsers)
      ensures !isModerator ==> outcome == Rejected(NotModerator) && mutedUsers == old(mutedUsers)
      ensures isModerator && DurationToSeconds(duration, unit) <= 0
              ==> outcome == Rejected(InvalidDuration) && mutedUsers == old(mutedUsers)
      ensures isModerator && DurationToSeconds(duration, unit) > 0
              ==> var expiry := now + DurationToSeconds(duration, unit);
                  outcome == Muted(expiry) && mutedUsers == old(mutedUsers)[member := expiry]
    {
      if !isModerator {
        return Rejected(NotModerator);
      }
      var seconds := DurationToSeconds(duration, unit);
      if seconds <= 0 {
        return Rejected(InvalidDuration);
      }
      var unmuteTimestamp := now + seconds;
      mutedUsers := mutedUsers[member := unmuteTimestamp];
      outcome := Muted(unmuteTimestamp);
    }

    /** The unmute command. */
    method Unmute(isModerator: bool, member: UserId) returns (outcome: Outcome)
      modifies this
      ensures Step(old(mutedUsers), Event.Unmute(isModerator, member)) == Reply(outcome, mutedUsers)
      ensures !isModerator ==> outcome == Rejected(NotModerator) && mutedUsers == old(mutedUsers)
      ensures isModerator && member in old(mutedUsers)
              ==> outcome == Unmuted && mutedUsers == old(mutedUsers) - {member}
      ensures isModerator && member !in old(mutedUsers)
              ==> outcome == NotMuted && mutedUsers == old(mutedUsers)
    {
      if !isModerator {
        return Rejected(NotModerator);
      }
      if member in mutedUsers {
        mutedUsers := mutedUsers - {member};
        outcome := Unmuted;
      } else {
        outcome := NotMuted;
      }
    }

    /** The per-message check: `Deleted` stands for the deletion the bot requests. */
    method OnMessage(authorIsBot: bool, inGuild: bool, author: UserId, now: int) returns (outcome: Outcome)
      modifies this
      ensures Step(old(mutedUsers), Message(authorIsBot, inGuild, author, now)) == Reply(outcome, mutedUsers)
      ensures authorIsBot || !inGuild ==> outcome == Ignored && mutedUsers == old(mutedUsers)
      ensures !authorIsBot && inGuild && HasLiveEntry(old(mutedUsers), author) && now < old(mutedUsers)[author]
              ==> outcome == Deleted && mutedUsers == old(mutedUsers)
      ensures !authorIsBot && inGuild && HasLiveEntry(old(mutedUsers), author) && old(mutedUsers)[author] <= now
              ==> outcome == Expired && mutedUsers == old(mutedUsers) - {author}
      ensures !HasLiveEntry(old(mutedUsers), author) ==> outcome == Ignored && mutedUsers == old(mutedUsers)
    {
      if authorIsBot || !inGuild {
        return Ignored;
      }
      var unmuteTime := if author in mutedUsers then mutedUsers[author] else 0;
      if unmuteTime != 0 {
        if now < unmuteTime {
          outcome := Deleted;
        } else {
          if author in mutedUsers {
            mutedUsers := mutedUsers - {author};
          }
          outcome := Expired;
        }
      } else {
        outcome := Ignored;
      }
    }
  }

  /** A client of the bot: mute user 42 at t = 0 for one minute; their message at t = 30
      is deleted, their message at t = 61 clears the mute, and the registry is empty again. */
  method OneMinuteMute() returns (atThirty: Outcome, atSixtyOne: Outcome, left: MuteMap)
    ensures atThirty == Deleted && atSixtyOne == Expired && left == map[]
  {
    var bot := new HyperOSBot();
    var muted := bot.TempMute(true, 42, 1, "minutes", 0);
    assert muted == Muted(60);
    atThirty := bot.OnMessage(false, true, 42, 30);
    atSixtyOne := bot.OnMessage(false, true, 42, 61);
    assert map[42 := 60] - {42} == map[];
    left := bot.mutedUsers;
  }
}
