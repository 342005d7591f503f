# CatsDogs game bot: a Dafny model of its core

The bot plays the CatsDogs Telegram mini-app for many accounts at once. Each
account is a Telegram session file under `sessions/`. The launcher finds the
session files, builds one client per session and starts one worker per
client. Proxies from `bot/config/proxies.txt` are handed out round-robin.

Each worker (`Tapper`) does the following:

- It picks a `User-Agent` for its session from `user_agents.json`. If the
  session has none, it generates one and stores it.
- It runs a loop that re-authenticates whenever the token is older than a
  live time drawn from [3500, 3600] seconds. Re-authenticating means opening
  the bot's web view, rebuilding the init-data header from the web-view URL
  and logging in.
- After re-authenticating, it reads the balance (the sum of the integer
  fields of the balance response). Then it works through the task list if
  `AUTO_TASK` is set, and claims the 8-hour reward if `CLAIM_REWARD` is set
  and the cooldown has passed.

The model has these modules:

- `Wrappers`: `Option`.
- `Text`: the Python string operations the code relies on: `split` on one
  character, `in`, `replace`, `ljust`, and splitting on a multi-character
  separator. It also has `Join`, which models the `&`-joined f-string that
  rebuilds the header (bot/core/tapper.py:137-138), and `RFind`, which
  `Launcher` uses to model `os.path.basename` and `os.path.splitext`
  (bot/utils/launcher.py:47).
- `StringOrder`: Python's `<` on strings and `sorted` on a list of strings.
- `Launcher`: `get_session_names`, `get_proxies`, `get_tg_clients`,
  `run_tasks`.
- `Tapper`: the user-agent registry and the `Tapper` object's state
  (`session_ug_dict`, the chosen agent, `start_param`). These are a class
  whose methods update them in place.
- `InitData`: the init-data rebuild of `get_tg_web_data`.
- `Tasks`: `processing_tasks` and the peer it passes to `join_tg_channel`.
- `Responses`: `get_balance` and `verify_task` on a decoded JSON body.
- `Claim`: `claim_reward`, including its timestamp normalisation.
- `RandomString`: `generate_random_string`.
- `TokenGate`: the `run` loop as a sequence of iterations.

Everything outside the program's own code is passed in as a parameter:

- network replies, as already-decoded JSON values or as `None` when the
  request raised;
- the clock;
- random draws;
- `urllib.parse.quote`/`unquote`;
- `datetime.fromisoformat`;
- `Proxy.from_str(...).as_url`;
- the generated user agent.

Python truthiness is spelled out at each use: the empty string, `0`, `None`
and an empty list count as false.

The loop in `run` does all of an iteration's work (login, balance, tasks,
claim and the long sleep) inside the branch that re-authenticates. While the
token is fresh, an iteration does nothing and does not sleep. The model
follows the code here; one might read the loop as doing its work every
cycle, but it does not.

## Model

| member | source | states |
|---|---|---|
| Launcher.GetSessionNames | bot/utils/launcher.py:44-50 | one name per session path, in the order of the sorted paths; each name is the path's basename with its last extension removed |
| Launcher.SessionNameOfPath | bot/utils/launcher.py:47 | basename then splitext turn `sessions/<x>.session` back into `x`, for every name that the glob can match |
| Launcher.SessionNamesOfFiles | bot/utils/launcher.py:44-50 | for a set of session files, the returned names are exactly those files' names: every file is listed, nothing else is, and the names follow path order |
| Launcher.ExtendedNameListedFirst | bot/utils/launcher.py:45-48 | sorting by path is not sorting by name: with sessions `a` and `a!`, `a!` is listed first whatever order the glob returns |
| StringOrder.SortSorted | bot/utils/launcher.py:45 | `sorted` returns an ordered list |
| StringOrder.SortPermutes | bot/utils/launcher.py:45 | `sorted` keeps every path exactly as often as it occurs |
| StringOrder.SortIsTheSortedPermutation | bot/utils/launcher.py:45 | any ordered rearrangement of the paths equals `sorted(paths)`, so the session order is determined by the set of files alone |
| Launcher.ProxyUrls | bot/utils/launcher.py:56 | one URL per row of the proxy file, in row order; fails exactly when some row does not parse |
| Launcher.GetProxies | bot/utils/launcher.py:53-60 | with `USE_PROXY_FROM_FILE` off, no proxies; on, the parsed rows of the file; a missing file raises |
| Launcher.GetTgClients | bot/utils/launcher.py:63-85 | no session files raises FileNotFoundError before any other check; then a zero `API_ID` or an empty `API_HASH` raises ValueError; otherwise one client per session name, in order, with the configured credentials and the `sessions/` workdir; clients are created if and only if all three checks pass |
| Launcher.RunTasks | bot/utils/launcher.py:123-136 | when `get_proxies` raises, no worker starts; otherwise one worker per client, in client order, and worker `i` gets proxy `i mod n` of the `n` proxies read, or none when there are no proxies |
| Launcher.ServedEvenly | bot/utils/launcher.py:125-130 | cycling the proxies over `m` clients gives proxy `k` exactly `m div n` clients, plus one if `k < m mod n` |
| Launcher.ServedBalanced | bot/utils/launcher.py:125-130 | no proxy serves more than one client more than any other |
| Tapper.LoadUserAgents | bot/core/tapper.py:69-84 | a stored list is returned as is; a missing file, a file that is not valid JSON, or JSON that is not a list all give the empty list |
| Tapper.FindAgent | bot/core/tapper.py:60-62 | the agent of the first entry for the session, and `None` exactly when no entry names the session |
| Tapper.FindAgentUnique | bot/core/tapper.py:60-62 | in a registry without duplicate sessions, the agent found is the one stored for the session, in both directions |
| Tapper.AppendKeepsFound | bot/core/tapper.py:48-50 | appending an entry never changes the agent found for a session that was already registered |
| Tapper.Tapper.constructor | bot/core/tapper.py:31-37 | the worker starts with an empty `start_param`, the stored registry, and the stored agent of its session; if there is none, it starts with a freshly generated agent that is appended to the registry |
| Tapper.Tapper.SaveUserAgent | bot/core/tapper.py:42-57 | appends an entry for the session only when none exists and returns the agent stored, or `None`; afterwards the session is registered, and a registry without duplicates stays without |
| Tapper.Tapper.CheckUserAgent | bot/core/tapper.py:59-67 | returns the stored agent, leaving the registry unchanged, or stores and returns the generated one; afterwards looking the session up finds the returned agent |
| Tapper.Tapper.GetTgWebData | bot/core/tapper.py:88-150 | a revoked session is fatal; any other failure before the start parameter is stored, including a URL that cannot be rebuilt, yields no data and keeps `start_param`; a web view yields the rebuilt header and records its start parameter; a disconnect that fails after that yields no data but leaves the new start parameter stored |
| InitData.FieldValues | bot/core/tapper.py:128-133 | `split('=')[1]` of each of the first six fields, in order; fails exactly when one of them has no `=` |
| InitData.RebuildInitData | bot/core/tapper.py:124-138 | the header is rebuilt exactly when the URL holds `tgWebAppData=` and its twice-decoded data has at least six `&`-fields, each of the first six with an `=`; the stored start parameter is the value of the fourth field |
| InitData.RebuiltFieldsInOrder | bot/core/tapper.py:134-138 | when `quote` escapes `&` and `=`, the rebuilt header reads back as six fields keyed `user, chat_instance, chat_type, start_param, auth_date, hash` in that order, each with exactly one `=`; the `user` value is `quote` of the first decoded field's value, every other value is the value of the decoded field at the same position, and the `start_param` value is the one stored on the worker |
| Tasks.ChannelPeer | bot/core/tapper.py:189 | an invite link (containing `https://t.me/+`) is passed on whole; any other link loses its first 13 characters |
| Tasks.PublicLinkTrimmed | bot/core/tapper.py:189 | `https://t.me/<name>` becomes `<name>` |
| Tasks.ProcessingTasks | bot/core/tapper.py:209-240 | a failed fetch gives only the error backoff; otherwise, task by task in list order, the joins, verifications and pauses of that task |
| Tasks.VerifiedAreEligible | bot/core/tapper.py:215-228 | the tasks sent for verification are exactly the eligible ones, in list order: visible, not completed, not `invite`, and not a channel task while channel joining is off |
| Tasks.VerifiedFromActionable | bot/core/tapper.py:216-228 | every `verify_task` call of a pass is for a task of the list with that id that is visible, not completed, not an invite, and a channel task only if joining is enabled |
| Tasks.SkippedNeverVerified | bot/core/tapper.py:216-226 | a task id whose every occurrence is hidden, completed, an invite, or a channel task with joining off is never sent for verification |
| Tasks.VerifiedAtMostOnce | bot/core/tapper.py:215-228 | with distinct ids in the list, no task is verified twice in one pass |
| Tasks.NoJoinWhenDisabled | bot/core/tapper.py:219-221 | with `JOIN_TG_CHANNELS` off, no channel is ever joined |
| Tasks.OnePausePerHandledTask | bot/core/tapper.py:216-236 | one 5-10 s pause per visible, uncompleted task that is not skipped by the channel `continue`, invites included |
| Responses.GetBalance | bot/core/tapper.py:242-254 | the balance is the sum of the integer values of the response (booleans count as 0 and 1); a failed request gives `None` |
| Responses.NonIntegersIgnored | bot/core/tapper.py:248-250 | a response with no integer values gives balance 0 |
| Responses.DropNonInteger | bot/core/tapper.py:248-250 | removing a non-integer value never changes the balance |
| Responses.VerifyTask | bot/core/tapper.py:256-268 | `True` exactly when some value of the response is the string `success`, `False` otherwise, `None` when the request failed |
| Claim.NormalizeTimestamp | bot/core/tapper.py:279-283 | a timestamp whose `Z`-replaced form does not have exactly one `.` cannot be normalised |
| Claim.NormalizeOfParts | bot/core/tapper.py:279-283 | `date.fraction+offset` normalises to `date.<fraction padded to 6 digits with 0>+offset` |
| Claim.NormalizeShape | bot/core/tapper.py:279-283 | every timestamp that normalises has the shape `date.fraction+offset` after `Z` is replaced, and normalises as above |
| Claim.NormalizeIdempotent | bot/core/tapper.py:279-283 | normalising a normalised timestamp changes nothing |
| Claim.ClaimDecision | bot/core/tapper.py:278-286 | a `null` or empty `claimed_at` is always due; a malformed one raises; otherwise the claim is due exactly when now is strictly later than `claimed_at` plus 8 hours |
| Claim.ClaimReward | bot/core/tapper.py:270-296 | the claim is posted exactly when the profile was read and the decision is due; `True` exactly when the post succeeded, `False` exactly when the cooldown has not passed, `None` on any error |
| Claim.MalformedNeverClaims | bot/core/tapper.py:280-281 | a `claimed_at` that cannot be split into date, fraction and offset never leads to a claim |
| Claim.CooldownBoundary | bot/core/tapper.py:285-286 | 1 hour after the last claim it is not due, at exactly 8 hours it is not due, and 9 hours after it is |
| RandomString.GenerateRandomString | bot/core/tapper.py:298-304 | `length` characters (none for a negative length), each the one that `int(62 * byte / 256)` picks from the 62 letters and digits |
| RandomString.EveryCharacterReachable | bot/core/tapper.py:302 | every one of the 62 characters is picked by some byte |
| TokenGate.Step | bot/core/tapper.py:320-347 | a fresh token makes the iteration idle; a due token with init data re-authenticates and takes the login time and the new live time; no data continues without touching the token; a revoked session terminates the loop, and only a due token can; a re-authenticating iteration runs the tasks exactly when `AUTO_TASK` is set and claims exactly when `CLAIM_REWARD` is set |
| TokenGate.Run | bot/core/tapper.py:307-354 | the loop from `access_token_created_time = 0` replays the iterations one by one and stops at a revoked session |
| TokenGate.ConsecutiveRefreshesSpaced | bot/core/tapper.py:322-330 | between two consecutive re-authentications, the second reads the clock at least the first one's live time after the login time that the first one recorded |
| TokenGate.LiveTimesInRange | bot/core/tapper.py:319-330 | every live time in force was drawn from [3500, 3600] |
| TokenGate.RefreshesAtLeastMinLiveApart | bot/core/tapper.py:319-330 | two consecutive re-authentications are at least 3500 s apart |
| TokenGate.FirstRefreshWaits | bot/core/tapper.py:308-322 | the first re-authentication reads the clock at a time of at least the initial live time |

## Left out

- Network I/O and the concurrency of `asyncio.gather` are not modelled. A
  request is its decoded reply, or `None` when it raised.
- Of the sleeps, only the 5-10 s pause after each task and the 3 s backoff
  after a failed task-list fetch are modelled, as steps of the
  `processing_tasks` trace. The start delay of `run` and its other sleeps
  (1-3 s after login, 5-10 s before the tasks, the long sleep) are not
  modelled, and neither are the 3 s sleeps after the other errors.
- `get_link`, the hidden referral override, is not part of this model. The
  referral code is an input.
- `login` and registration are not modelled. Registration sends
  `int(start_param)` and re-enters `login`. In `run`, a failed login still
  counts as a re-authentication, and the model treats it that way.
- `check_proxy`, the Telegram client calls inside `join_tg_channel` and
  `get_tg_web_data`, and the `process()` menu and `register_sessions` are
  not modelled. For the handshake only its outcome is modelled.
- The `except Exception` backoff in `run` is not modelled. Every method that
  `run` calls catches its own errors. The one exception is `Proxy.from_str`
  at the top of `get_tg_web_data` (bot/core/tapper.py:89-90). Its input is a
  URL that `get_proxies` already produced with `as_url`, so the model takes
  it to parse.
- JSON bodies of the wrong shape are not modelled. In `processing_tasks` a
  missing key or an entry that is not an object aborts the rest of the
  pass through the same 3 s backoff as a failed fetch; the steps of the
  earlier tasks have already happened. An empty object or string as the
  body runs no iteration and takes no backoff. The model only covers
  well-formed task lists and the failed fetch.
- Malformed `user_agents.json` entries (a missing key, or a `null`
  `user_agent`) are not modelled. Writing the file back is not modelled
  either; the registry is the in-memory list.
- `DISABLED_TASKS` is configured but never read by the code, so it has no
  counterpart here.
- Tapper.Tapper.GetTgWebData: the proxy handling and the handshake are an
  input (`Handshake`); `unquote`, `quote` and `fromisoformat` are parameters
  whose own behaviour is not modelled.
- Tapper.LoadUserAgents: only a missing file and invalid JSON are caught.
  Other read errors (`UnicodeDecodeError`, `PermissionError`,
  `IsADirectoryError`) raise out of `Tapper.__init__`, and `run_tapper`
  does not catch them, so that worker never starts. These errors are not
  modelled.
- Tapper.Tapper.SaveUserAgent: `generate_random_user_agent` is a parameter,
  and writing `user_agents.json` is not modelled.
- Launcher.GetProxies: `Proxy.from_str(...).as_url` is a parameter, and the
  `row.strip()` before it is folded into it.
- TokenGate.Run: clock readings are `real` seconds, without float rounding.
  `round(sleep_time / 60, 1)` is only logged, so it is not modelled.
- Claim.ClaimReward: a profile without a `claimed_at` key raises `KeyError`
  inside `claim_reward`; the model folds that case into a failed profile
  request (`info` is `None`), which gives the same result.
- Claim.ClaimDecision: times are integer microseconds since the epoch, as
  the parameter `fromIso` returns them. Time zones are not modelled.
