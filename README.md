# matrix-b0t: command dispatch and room membership, modelled in Dafny

matrix-b0t is a Matrix chat bot. It reads `config.ini` at start-up. The `Users`
section maps each sender to a comma-separated list of commands, and the
`Webhooks` section maps each command to a URL. When a text message starts with
the command prefix (`!b0t` unless `command_prefix` sets another), the bot takes
the rest of the body as the command. If that command is in the sender's list,
the bot posts to the command's webhook URL. The bot also accepts every room
invitation and appends the room id to `joined-rooms.txt`. At the next start it
re-joins every room listed there and listens for messages in it.

This project models the decision logic and the one piece of persistent state:

- `wrappers.dfy`: `Option`, `Result` and `Outcome`, which stand in for Python exceptions.
- `text.dfy` (module `Text`): the Python string and file behaviour the bot relies on.
  This covers `str.strip()` with Python's whitespace set, `startswith`,
  `split(',')` and `','.join`, universal-newline translation when reading a text
  file, and cutting that text into lines the way iteration over a file does.
- `config.dfy` (module `Config`): the tables and settings built at start-up, and
  `check_config`. It also covers the choice between token login and password login.
- `dispatch.dfy` (module `Dispatch`): `on_message` as a pure function from an
  event to how it is handled: it is ignored, one webhook call with its URL,
  or the `KeyError` the code raises.
- `membership.dfy` (module `Membership`): the class `Bot`. Its fields are the
  text of `joined-rooms.txt`, the `joined_rooms` list read at start-up, and the
  rooms that have a message listener. It has the start-up load, the invite
  handler that appends to the file, and the start-up loop that attaches the
  listeners.

## Behaviour worth knowing

- Every invitation appends the room id to the file, with no duplicate check
  (`RepeatedInviteStoredTwice`).
- The command is the body with exactly `len(prefix)` characters cut off, and
  nothing is trimmed. With the default prefix, `!b0t deploy` yields the command
  ` deploy`, which matches nothing; only `!b0tdeploy` calls the `deploy` webhook
  (`DefaultPrefixKeepsSpace`).
- An authorized command that has no webhook raises `KeyError` at
  `commands[command]` (`UnknownCommand`); it is not a silent no-op.
- No acknowledgement message is sent back to the room.
- `check_config` accepts a token alone as credentials, but lines 24-26 read
  `username`, `password` and `token` with `[]` before `check_config` runs. A
  configuration without all three therefore stops with `KeyError` before the
  check (`LoadedConfigPassesCheck`, `TokenOnlyConfigIsRejectedEarlier`).
- Room ids are read back stripped, so an entry never has whitespace at either
  end; appending to a file whose last line lacks its newline glues the new id
  onto that line (`AppendToUnterminatedLineMerges`).

## Model

| member | source | states |
|---|---|---|
| `Dispatch.OnMessage` | scripts/matrix-b0t.py:77-85 | A webhook is called if and only if the message kind is `m.text`, the body starts with the prefix, the sender has a command list, the command (the body minus the prefix) is in that list, and the command has a URL. The call goes to that URL. An authorized command with no URL is exactly the `KeyError` case. A missing `msgtype`, or a missing `body` on a text message, is the only content-read error. |
| `Dispatch.CommandOf` | scripts/matrix-b0t.py:80-82 | The command is the body with exactly `len(prefix)` characters removed: `prefix + command == body`, with no trimming. |
| `Dispatch.EachCheckIsNecessary` | scripts/matrix-b0t.py:78-84 | Each check alone stops the call: a non-text message is ignored, and a body without the prefix, an unknown sender or a command missing from the sender's list calls no webhook. |
| `Dispatch.PermissionIsPerSender` | scripts/matrix-b0t.py:83-85 | The same message calls the webhook for a sender whose list holds the command, and is ignored for a sender whose list lacks it, even though the command has a URL. |
| `Dispatch.ScenarioSettings` | scripts/matrix-b0t.py:15-32 | A configuration with `alice = deploy`, a `deploy` webhook and no `command_prefix` loads with `alice` allowed `["deploy"]` and prefix `!b0t`. |
| `Dispatch.DefaultPrefixKeepsSpace` | scripts/matrix-b0t.py:80-85 | With prefix `!b0t`, `!b0t deploy` gives the command ` deploy` and calls nothing. `!b0tdeploy` calls the `deploy` URL. |
| `Config.UserCommands` | scripts/matrix-b0t.py:15 | The table has an entry for exactly the senders of the Users section; what each list holds is pinned down by `UserCommandsRoundTrip`. |
| `Config.UserCommandsRoundTrip` | scripts/matrix-b0t.py:15 | A sender's command list is comma-free and joins back with `,` to the configured value. It is the only such list, so the split is exact and untrimmed. |
| `Config.Prefix` | scripts/matrix-b0t.py:32 | The prefix is `command_prefix` when the Matrix section sets it, and `!b0t` otherwise. |
| `Config.LoadSettings` | scripts/matrix-b0t.py:15-32 | With values taken after interpolation, start-up reading succeeds if and only if the sections Users, Webhooks and Matrix and the options server_url, username, password, token and room_id are all present. A failure names a missing section or option. On success the tables and settings are the configured values. |
| `Config.FirstAbsent` | scripts/matrix-b0t.py:51-53 | Returns nothing exactly when all the keys are present. Otherwise it returns the first key in order that is missing. |
| `Config.CheckRequired` | scripts/matrix-b0t.py:48-53 | The loop over the required sections passes if and only if every listed section exists and has every listed key. A failure is a missing section or a missing key, and what it names is really absent. |
| `Config.CheckConfig` | scripts/matrix-b0t.py:47-57 | Every error `check_config` raises names something the configuration really lacks: a section, a key of a present section, or credentials in the Matrix section. A pass means every entry of `REQUIRED_CONFIG` is satisfied. |
| `Config.CheckConfigPassIff` | scripts/matrix-b0t.py:47-57 | `check_config` passes if and only if Matrix, Users and Webhooks exist, Matrix has `server_url` and `room_id`, and Matrix has `token` or both `username` and `password`. |
| `Config.CheckConfigFailures` | scripts/matrix-b0t.py:48-57 | The credential error occurs exactly when the required sections and keys are present and the credentials are not. A missing Matrix section is reported first, then `server_url`, then `room_id`. A reported missing section is really absent. |
| `Config.LoadedConfigPassesCheck` | scripts/matrix-b0t.py:21-29 | Any configuration that lines 15-32 read without error passes `check_config`. |
| `Config.TokenOnlyConfigIsRejectedEarlier` | scripts/matrix-b0t.py:24 | A Matrix section with a token but no username or password passes `check_config`, but the script fails earlier with `KeyError('username')`. |
| `Config.LoginMode` | scripts/matrix-b0t.py:99-102 | Token login is chosen if and only if the token string is non-empty. |
| `Config.LoginFromConfig` | scripts/matrix-b0t.py:99-102 | For a configuration the script loads, the login uses the configured token when it is non-empty. Otherwise it uses the configured username and password. |
| `Text.StartsWith` | scripts/matrix-b0t.py:81 | `startswith(p)` holds if and only if `p` is no longer than the string and agrees with it character by character. |
| `Text.JoinSplit` | scripts/matrix-b0t.py:15 | Joining the pieces of a `split(',')` with `,` gives back the original string. |
| `Text.SplitJoin` | scripts/matrix-b0t.py:15 | Splitting a join of comma-free pieces gives back the pieces. |
| `Text.Split` | scripts/matrix-b0t.py:15 | `split` returns at least one piece, and no piece contains the separator. |
| `Text.Strip` | scripts/matrix-b0t.py:44 | `strip()` returns a string with no whitespace at either end, never longer than its input. |
| `Text.StripFixesTrimmed` | scripts/matrix-b0t.py:44 | `strip()` leaves a string unchanged if and only if the string has no whitespace at either end. |
| `Text.StripLine` | scripts/matrix-b0t.py:44 | Stripping a trimmed line together with its newline gives the line back. |
| `Text.TrimLeftDropsWhitespace` | scripts/matrix-b0t.py:44 | Every character that the leading half of `strip()` removes is whitespace. |
| `Text.TrimRightDropsWhitespace` | scripts/matrix-b0t.py:44 | Every character that the trailing half of `strip()` removes is whitespace. |
| `Text.Universal` | scripts/matrix-b0t.py:42-44 | Universal-newline translation never lengthens the text. |
| `Text.UniversalCrLf` | scripts/matrix-b0t.py:42-44 | A `\r\n` pair is read as a single `\n`. |
| `Text.UniversalLoneCr` | scripts/matrix-b0t.py:42-44 | A `\r` that is not followed by `\n` is read as `\n`. |
| `Text.UniversalOther` | scripts/matrix-b0t.py:42-44 | Every character other than `\r` is read as itself. Together with the two lemmas above, this fixes the translation completely. |
| `Text.UniversalShape` | scripts/matrix-b0t.py:42-44 | Text read in text mode contains no carriage return. It is empty only when the file is empty, and it ends with a newline when the file does. |
| `Text.UniversalPlain` | scripts/matrix-b0t.py:42-44 | Text without carriage returns reads back unchanged. |
| `Text.UniversalAppend` | scripts/matrix-b0t.py:42-44 | Newline translation of two pieces is the translation of each, when the first piece does not end in `\r`. |
| `Text.Lines` | scripts/matrix-b0t.py:44 | Iterating over a file yields no lines exactly when its text is empty, and never more lines than characters. |
| `Text.ConcatLines` | scripts/matrix-b0t.py:44 | The lines yielded by file iteration concatenate back to the text. |
| `Text.LinesShaped` | scripts/matrix-b0t.py:44 | Every yielded line is non-empty and has a `\n` only as its last character. Every line but the last ends with `\n`. |
| `Text.LinesAppend` | scripts/matrix-b0t.py:44 | When the first text ends with a newline, the lines of the two texts together are the lines of the first followed by the lines of the second. |
| `Text.LineEndSpec` | scripts/matrix-b0t.py:44 | A line ends just after the first `\n`, or at the end of the text. |
| `Text.LineEndUnique` | scripts/matrix-b0t.py:44 | Only one position ends the first line. |
| `Text.LinesOfOneLine` | scripts/matrix-b0t.py:44 | A line with no line break, followed by its newline, reads as exactly one line. |
| `Text.LinesOfUnterminated` | scripts/matrix-b0t.py:44 | Unterminated text with no line break reads as exactly one line. |
| `Membership.StripEach` | scripts/matrix-b0t.py:44 | The comprehension keeps one entry per line, in order, each the stripped line. |
| `Membership.StoredRooms` | scripts/matrix-b0t.py:44 | `joined_rooms` has one entry per line of the file, is empty exactly when the file is, and no entry has whitespace at either end. |
| `Membership.StoredRoomsAppend` | scripts/matrix-b0t.py:44 | Reading a newline-terminated file followed by more text gives the entries of the file, then the entries of the added text. |
| `Membership.StoredRoomsOfLine` | scripts/matrix-b0t.py:44 | A file holding one trimmed id and its newline reads as exactly that id. |
| `Membership.InviteRoundTrip` | scripts/matrix-b0t.py:42-65 | Take a file that is empty or ends with a newline, and a trimmed room id without line breaks. Reading the file after an invite appends the id gives the old entries followed by the id. |
| `Membership.RepeatedInviteStoredTwice` | scripts/matrix-b0t.py:64-65 | Two invitations to the same room store it twice. |
| `Membership.AppendToUnterminatedLineMerges` | scripts/matrix-b0t.py:64-65 | When the file is newline-terminated text followed by a last line with no newline, the appended id is glued onto that last line: the entries before it are kept, and the last line and the id read back as one entry. |
| `Membership.FirstUnjoinable` | scripts/matrix-b0t.py:111-117 | Gives the index of the first stored room that cannot be joined, or the number of rooms when all can be joined. |
| `Membership.Bot.Load` | scripts/matrix-b0t.py:42-44 | At start-up the file is read once into `joined_rooms`, and no room has a listener yet. |
| `Membership.Bot.OnInvite` | scripts/matrix-b0t.py:59-65 | After a successful join, the file becomes the old text plus `room_id + "\n"`. A failed join leaves it unchanged. `joined_rooms` and the listeners never change. |
| `Membership.Bot.ListenToStoredRooms` | scripts/matrix-b0t.py:111-117 | Stored rooms get listeners in order, up to the first room that cannot be joined, where the process exits. It reports success if and only if every room could be joined. |
| `Membership.AllJoinable` | scripts/matrix-b0t.py:111-114 | When every join succeeds, every stored room gets a listener. |
| `Membership.InviteThenRestart` | scripts/matrix-b0t.py:59-117 | A room joined by invitation has a listener in the same run only if it was already in the file. After a restart that rereads the file, it has one. |

## Left out

- The Matrix client is not part of this model. That covers its construction,
  the `login` calls, `join_room`, `add_invite_listener`/`add_listener` and
  `start_listener_thread`, which are a foreign library, network I/O and a
  background thread. Whether a join succeeds is a parameter: `joinSucceeds`, or
  the set `unjoinable`. The login decision is modelled as the `Login` value it selects.
- `trigger_webhook` (lines 69-74) is not modelled: it is the HTTP POST,
  `raise_for_status` and the catch that logs any request error. A call is the
  `Trigger(url)` outcome. What happens to the listener thread after the uncaught
  `KeyError` of line 85 depends on the Matrix client library, which is not part
  of this model.
- Reading the configuration is not modelled: `CONFIG_PATH`, the path of
  `joined-rooms.txt` and `configparser` itself (lines 7-12). The parsed file is
  given as a map from section to options. `configparser` lower-cases option
  names, merges the `DEFAULT` section into every section, accepts `:` as well as
  `=` between name and value, and trims values. All of that is assumed done
  before the map is built. For example, a sender id containing `:` cannot be
  written as a key without changing that library's delimiters.
- `Config.LoadSettings`: option values are taken as `configparser` returns
  them after its default interpolation (`BasicInterpolation`): `%%` and
  `%(name)s` are assumed already expanded, and the `InterpolationSyntaxError`
  or `InterpolationMissingOptionError` a stray `%` raises at lines 15-32 is not
  modelled. For such a value the script stops where the model succeeds.
- An event whose `content` or `sender` is missing is not modelled: every room
  event is assumed to have both. A missing `msgtype` or `body` is modelled.
- File I/O failures are not modelled: a missing `joined-rooms.txt` at start-up
  (`open` with `r+`) or a failed append. The file is handled as text and written
  with `\n` line endings. Character encoding is not modelled.
- `print` logging and the `exit()` paths are not modelled, except that the
  start-up loop stops at the first room that cannot be joined.
- `InviteThenRestart` assumes that every join succeeds in both runs. Other
  cases follow from `ListenToStoredRooms`.
