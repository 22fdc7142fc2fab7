# HyperOS-Bot mute registry in Dafny

HyperOS-Bot is a Discord moderation bot. It implements its "silent" temporary mute
itself, without using the platform's timeout feature. The bot keeps an in-memory
dictionary `muted_users` from user id to the instant the mute ends. Three places use it:

- the `temp_mute` command converts a duration and unit to seconds and stores `now + seconds`;
- the `unmute` command deletes an entry;
- the `on_message` hook runs on every message. It deletes the message while the author's
  mute is active, and drops the entry the first time it sees the mute has run out.

This project models that registry and the unit conversion it depends on.

- `duration.dfy` (module `Duration`): `DurationToSeconds`. Its contract matches it
  against a unit table, and it returns a positive number exactly when the unit is known
  and the duration is positive.
- `registry.dfy` (module `Registry`): the registry as a value (`MuteMap`) and the
  events that act on it (`Event`).
  - `Step` is the effect of one event. It returns the reply the bot would give
    (`Outcome`) and the new registry.
  - `Run` replays a sequence of events.
  - `LastMute` is a reference definition computed from the event history alone: the
    expiry set by the last successful mute that no successful unmute followed.
  - The main theorem, `MessageDeletedIffMuteOutstanding`, connects the two. A message
    is deleted exactly when such a mute exists and has not yet ended.
- `bot.dfy` (module `Bot`): the class `HyperOSBot`. Its field `mutedUsers` is updated in
  place by `TempMute`, `Unmute` and `OnMessage`. Each method's contract gives its new
  state and reply explicitly, and also as `Step` of the old state, so the lemmas in
  `Registry` apply to the object.

The clock (`time.time()`) becomes an integer parameter `now`, in seconds. The moderator
check becomes a boolean parameter `isModerator`. Deleting a message is represented only
by the `Deleted` outcome.

The obvious reading, muted iff an entry exists and `now < expiry`, differs from the code
in two places:

- The code first tests the entry for truthiness (bot.py:51), so a stored expiry of 0 is
  never enforced or removed by the message check; `unmute` still removes it and
  `temp_mute` still overwrites it. `HasLiveEntry` models that test literally, and
  `ZeroEntryIgnoredByMessageCheck` states the consequence. A 0 expiry needs a negative
  clock reading. For that reason the trace theorem asks for `0 <= t`.
- The code's second membership test before `del` (bot.py:62) always holds when events
  are handled one at a time. It is kept in `OnMessage` and has no effect on the outcome.

The trace theorem `MessageDeletedIffMuteOutstanding` also assumes a clock that does not go
back: every message already handled is no later than `t`. `time.time()` (bot.py:53) is a
wall clock and can step back. If it does so after an expired entry was dropped, the source
lets a message through even though the dropped mute would still be running at the
earlier reading.

## Model

| member | source | states |
|---|---|---|
| `Duration.DurationToSeconds` | bot.py:81-85 | the result is duration times the seconds in a minute, hour or day (60, 3600, 86400); any other unit gives 0; the result is positive iff the unit is known and the duration positive |
| `Duration.DurationExamples` | bot.py:81-85 | 5 minutes is 300 s, 2 hours is 7200 s, 1 day is 86400 s, and any number of "fortnights" is 0 |
| `Registry.Step` | bot.py:42-127 | one event changes only its subject's entry, and the reply says exactly how the registry changed. A mute or unmute by a non-moderator is rejected with no change. A mute with a non-positive converted duration is rejected as invalid with no change. A successful mute stores now + the converted seconds, which is later than `now`; unmute is never rejected for its duration, and a moderator's unmute reports Unmuted iff an entry existed; a message outside the guild or from a bot is ignored; a message is deleted iff the author has a live entry later than `now`, and expired iff that entry is at or before `now` |
| `Registry.StepIsLocal` | bot.py:42-127 | what an event does to its subject's entry, and the reply it produces, depend only on that subject's entry |
| `Registry.RunTracksLastMute` | bot.py:28-127 | starting from the empty registry (bot.py:28), after any sequence of events a user's entry is exactly the expiry of their last successful mute that no successful unmute followed; if that mute exists but the entry is gone, it had ended no later than a message already handled |
| `Registry.MessageDeletedIffMuteOutstanding` | bot.py:42-127 | a message from u at time t (t >= 0, no earlier than earlier messages) is deleted iff u's last successful mute that no unmute followed ends after t |
| `Registry.RunDependsOnlyOnOwnEvents` | bot.py:42-127 | after any sequence of events, a user's entry is the same as after only the events about that user |
| `Registry.RemuteOverwrites` | bot.py:102-105 | a successful mute overwrites the entry left by an earlier mute of the same member |
| `Registry.UnmuteIdempotent` | bot.py:117-127 | unmuting twice leaves the registry as unmuting once, and a moderator's repeat is answered with the informational NotMuted |
| `Registry.ZeroEntryIgnoredByMessageCheck` | bot.py:49-51 | a stored expiry of 0 is falsy, so a message from that user is ignored and the entry stays |
| `Registry.OneMinuteMuteScenario` | bot.py:42-113 | after a one-minute mute of user 42 at t=0, a message at t=30 is deleted, and a message at t=61 is answered Expired and leaves the registry empty |
| `Bot.HyperOSBot.constructor` | bot.py:24-28 | a new bot starts with an empty mute registry |
| `Bot.HyperOSBot.TempMute` | bot.py:92-113 | a non-moderator is rejected and an invalid (non-positive) duration is rejected, both with the registry unchanged; otherwise the member's entry becomes now + seconds and every other entry is kept; the result equals `Step` of the old registry |
| `Bot.HyperOSBot.Unmute` | bot.py:117-127 | a non-moderator is rejected with no change; a muted member's key alone is removed (Unmuted); an unmuted member leaves the registry unchanged (NotMuted); the result equals `Step` |
| `Bot.HyperOSBot.OnMessage` | bot.py:42-63 | a message from a bot or outside the guild is ignored with no change; with a live entry later than now the message is deleted and the registry is unchanged; with a live entry at or before now the entry is removed and nothing else changes; the result equals `Step` |
| `Bot.OneMinuteMute` | bot.py:42-113 | on the object: mute at t=0 for 1 minute, then a message at t=30 is Deleted, a message at t=61 is Expired, and the registry ends empty |

## Left out

- Discord API side effects are left out, because they are calls into the platform:
  - `message.delete` (bot.py:56) is represented by the `Deleted` outcome only; its
    `Forbidden` failure is only logged by the source;
  - every `send_message`/`followup` reply, including the reply texts and the `reason`
    argument;
  - the reply's rendering of the unmute instant (bot.py:107). That line passes a
    `discord.Object` to `format_dt`, which expects a datetime, so it may raise. If it
    does, it raises after line 105 has stored the entry, so the registry effect is the
    same and the confirmation reply is not sent.
- `on_ready` command-tree sync (bot.py:31-39), intents, token handling and `bot.run`
  (bot.py:13, 65-71, 190-194) are left out as configuration and I/O.
- `is_moderator` (bot.py:76-79) asks the platform for role membership. It is the boolean
  input `isModerator`. This input also covers the `has_permissions` decorators
  (bot.py:91, 116). When one of those fails, the handler does not run, so the registry
  is unchanged just as for a `NotModerator` rejection.
- Wall-clock time for a mute is a float in the source (bot.py:53, 102). The model uses an
  integer `now` in whole seconds.
- `temp_ban` (bot.py:131-152) is left out: it is a ban call, then an asynchronous sleep
  and an unban, and it keeps no local state. Unlike `temp_mute`, it does not reject a
  non-positive duration (bot.py:138).
- `perm_ban`, `warn` and `add_dynamic_role` (bot.py:154-188) are left out: each is a role
  check, one platform call and a reply.
- The handlers run on one asyncio event loop and do not race on `muted_users`. The model
  handles events one at a time and leaves concurrency out.
- The word filter, reaction-role table and web dashboard are not part of this model.
  They do not appear in `bot.py`.
