# Audyn torrent bridge, modelled in Dafny

Audyn is a Flutter audio app. On Android, torrents are handled by libtorrent
through a native JNI wrapper in `LibtorrentWrapper.cpp`. The Flutter side reaches
that wrapper through a method channel, which `MainActivity.kt` decodes. This
project models both halves:

- **Native wrapper** (`hex.dfy`, `settings.dfy`, `pieces.dfy`, `status_json.dfy`,
  `native_session.dfy`), which has:
  - the hexadecimal codec `to_hex` / `hex_to_sha1`;
  - the process-wide `global_session`, created lazily by `get_session` and
    dropped by `cleanupSession`;
  - `addTorrent`, which builds a settings pack from its flags;
  - the JSON-looking snapshots of `getTorrentStats` and `getSwarmInfo`;
  - `removeTorrentByInfoHash`, `getInfoHash`, and torrent creation with
    `set_piece_hashes_fallback`.

  The session is the class `NativeSession.Native`, whose one field is the
  optional session: its settings plus its torrents in handle order. The loops
  of the source are `for` loops proved against specification functions (`Encode`,
  `Decode`, `StatsJson`, `SwarmJson`, `Piece`).
- **Method-channel dispatcher** (`dispatch.dfy`): a pure decision table.
  - It maps a method name and a loosely typed argument either to a response
    (`INVALID_ARGUMENT`, not-implemented) or to one call on the wrapper.
  - `Handle` then turns the call's outcome into success or `ERROR`, or into no
    response at all when the throwable is not an `Exception`.
  - The wrapper is an arbitrary function from call to outcome, so it may
    return, throw an `Exception`, or throw another `Throwable`.

Some behaviour is supplied as parameters:
- Outside effects:
  - the contents of files (`None` when a file cannot be opened);
  - SHA-1, as `sha1`;
  - `bdecode` with `lt::torrent_info`, as `parse`;
  - the piece layout chosen by `lt::add_files`/`lt::create_torrent`.
- Engine decisions:
  - whether the engine reports an error (`engineError`), and whether it treats
    a duplicate as one (`duplicateIsError`);
  - the status numbers it reports.

`wrappers.dfy` holds the `Option` and `Result` types.

Paths in the table below are relative to the repository root.

## Model

| member | source | states |
|---|---|---|
| Hex.Encode | audyn0/android/app/src/main/cpp/LibtorrentWrapper.cpp:59-67 | the hex spelling of `n` bytes has exactly `2n` characters |
| Hex.ToHex | audyn0/android/app/src/main/cpp/LibtorrentWrapper.cpp:59-67 | the two-pushes-per-byte loop builds exactly the hex spelling `Encode(input)` |
| Hex.EncodeAt | audyn0/android/app/src/main/cpp/LibtorrentWrapper.cpp:62-65 | byte `i` becomes `hex_chars[high nibble]` at position `2i` and `hex_chars[low nibble]` at `2i+1` |
| Hex.EncodeIsLowerHex | audyn0/android/app/src/main/cpp/LibtorrentWrapper.cpp:47-67 | every output character is one of `0123456789abcdef` |
| Hex.ParsePair | audyn0/android/app/src/main/cpp/LibtorrentWrapper.cpp:54 | `stoul(pair, 16)` cast to `unsigned char` converts exactly when a hex digit is reached, either first or after one blank, `+` or `-` |
| Hex.Decode | audyn0/android/app/src/main/cpp/LibtorrentWrapper.cpp:49-57 | `hex_to_sha1`'s answer, `None` where it throws; only 40-character strings are accepted |
| Hex.HexToSha1 | audyn0/android/app/src/main/cpp/LibtorrentWrapper.cpp:49-57 | the length check and the 20 `stoul` conversions into the hash array give exactly `Decode(hex)`, including failure when it throws |
| Hex.DecodePrefixIff | audyn0/android/app/src/main/cpp/LibtorrentWrapper.cpp:52-55 | the first `n` pairs decode exactly when each pair converts, and byte `i` is then the conversion of pair `i` |
| Hex.DecodeIff | audyn0/android/app/src/main/cpp/LibtorrentWrapper.cpp:49-57 | decoding succeeds exactly on 40-character strings whose 20 pairs all convert; any other length fails; byte `i` comes from characters `2i`, `2i+1` |
| Hex.DecodeValidHex | audyn0/android/app/src/main/cpp/LibtorrentWrapper.cpp:49-57 | 40 hex digits of either case always decode, and byte `i` is `16·d(2i) + d(2i+1)` |
| Hex.ParsePairIsLenient | audyn0/android/app/src/main/cpp/LibtorrentWrapper.cpp:54 | `stoul` with base 16 also converts pairs like `1g`, `0x`, ` a`, `+F` and `-1`, and rejects `g0` and `- ` |
| Hex.RoundTrip | audyn0/android/app/src/main/cpp/LibtorrentWrapper.cpp:49-67 | `hex_to_sha1(to_hex(h)) == h` for every 20-byte digest |
| Hex.EncodeInjective | audyn0/android/app/src/main/cpp/LibtorrentWrapper.cpp:59-67 | distinct digests have distinct hex spellings |
| Settings.SessionDefaults | audyn0/android/app/src/main/cpp/LibtorrentWrapper.cpp:97-104 | a new session's pack turns on DHT, LSD, UPnP, NAT-PMP and both uTP directions |
| Settings.FlagSettings | audyn0/android/app/src/main/cpp/LibtorrentWrapper.cpp:166-172 | the pack `addTorrent` builds: DHT and LSD from their flags, UPnP and NAT-PMP both from `announce`, both uTP directions from `enableUTP`, so each pair always agrees |
| Settings.FlagSettingsDependsOn | audyn0/android/app/src/main/cpp/LibtorrentWrapper.cpp:166-172 | two flag sets give the same pack exactly when they agree on announce, DHT, LSD and uTP; `seedMode` and `enableTrackers` never reach the settings pack |
| Settings.FlagSettingsOnto | audyn0/android/app/src/main/cpp/LibtorrentWrapper.cpp:166-172 | every pack whose pairs agree is produced by the flags read back from it (DHT and LSD map one to one) |
| Pieces.SetPieceHashesFallback | audyn0/android/app/src/main/cpp/LibtorrentWrapper.cpp:184-199 | fails for `num_pieces <= 0` before the file is tried, then for an unopenable file; otherwise gives `num_pieces` hashes, hash `i` over bytes `[i·L, min((i+1)·L, size))` |
| Pieces.PieceSize | audyn0/android/app/src/main/cpp/LibtorrentWrapper.cpp:192-196 | a piece is at most `L` bytes long, is exactly `L` inside the content, and is empty past its end |
| Pieces.PiecesCover | audyn0/android/app/src/main/cpp/LibtorrentWrapper.cpp:193-198 | the first `n` pieces laid end to end are the first `min(n·L, size)` bytes of the content |
| Pieces.CreateTorrent | audyn0/android/app/src/main/cpp/LibtorrentWrapper.cpp:201-253 | succeeds exactly when the input exists, the layout is accepted and piece hashing succeeds; the draft then has the trackers in order (none for a null array), creator `audyn`, comment `Generated by Audyn` and the per-piece hashes |
| StatusJson.ObjectJson | audyn0/android/app/src/main/cpp/LibtorrentWrapper.cpp:266-272 | the object written for one status under a given name, opening with `{` and closing with `}` |
| StatusJson.DisplayName | audyn0/android/app/src/main/cpp/LibtorrentWrapper.cpp:267 | the printed name is never empty, and a non-empty name is printed as it is |
| StatusJson.StreamStep | audyn0/android/app/src/main/cpp/LibtorrentWrapper.cpp:264-274 | one loop step of the stats stream appends object `i`, plus a comma unless it is the last |
| StatusJson.JoinLength | audyn0/android/app/src/main/cpp/LibtorrentWrapper.cpp:264-274 | the joined objects take their lengths plus `n − 1` commas |
| StatusJson.JoinAt | audyn0/android/app/src/main/cpp/LibtorrentWrapper.cpp:264-274 | object `i` stands verbatim at its offset in the join, with a single comma before every object but the first |
| StatusJson.BracketAt | audyn0/android/app/src/main/cpp/LibtorrentWrapper.cpp:261-276 | object `i` stands verbatim inside the brackets at offset `1 + Offset(i)` |
| StatusJson.BracketSeparator | audyn0/android/app/src/main/cpp/LibtorrentWrapper.cpp:261-276 | the character just before object `i` is `[` for the first object and `,` for every other |
| StatusJson.BracketShape | audyn0/android/app/src/main/cpp/LibtorrentWrapper.cpp:261-276 | the array opens with `[` and closes with `]`, is `[]` with no objects, and otherwise holds exactly the objects and `n − 1` commas |
| StatusJson.StatsArrayAt | audyn0/android/app/src/main/cpp/LibtorrentWrapper.cpp:261-276 | the stats object of status `i` stands verbatim in the array, in status order, preceded by `[` or a single comma |
| StatusJson.StatsObjectName | audyn0/android/app/src/main/cpp/LibtorrentWrapper.cpp:267 | the stats object prints an empty name as `Unknown` and any other name as it is; otherwise it equals the swarm object |
| StatusJson.NameVerbatim | audyn0/android/app/src/main/cpp/LibtorrentWrapper.cpp:302 | the name follows `{"name":"` verbatim and unescaped and is closed by `"` |
| NativeSession.MatchFrom | audyn0/android/app/src/main/cpp/LibtorrentWrapper.cpp:297-299 | gives the first handle from `k` on whose lowercase hex info-hash equals the argument, or reports that none does |
| NativeSession.FindFrom | audyn0/android/app/src/main/cpp/LibtorrentWrapper.cpp:326-327 | `find_torrent` gives a handle with the requested info-hash, or reports that none has it |
| NativeSession.Native.constructor | audyn0/android/app/src/main/cpp/LibtorrentWrapper.cpp:41 | `global_session` starts empty |
| NativeSession.Native.GetSession | audyn0/android/app/src/main/cpp/LibtorrentWrapper.cpp:94-109 | creates a session with the default pack and no torrents only when there is none; an existing session and its torrents stay as they are |
| NativeSession.Native.CleanupSession | audyn0/android/app/src/main/cpp/LibtorrentWrapper.cpp:113-118 | afterwards there is no session, whatever the state before, so a second call changes nothing |
| NativeSession.Native.AddTorrent | audyn0/android/app/src/main/cpp/LibtorrentWrapper.cpp:128-182 | fails with the session untouched for an unreadable or unparsable file; otherwise the session exists with the flag pack applied, and the torrent (save path, seed mode, own name) is appended when new and there is no engine error; the result follows the engine error and duplicate rules; info-hashes stay distinct |
| NativeSession.Native.GetTorrentStats | audyn0/android/app/src/main/cpp/LibtorrentWrapper.cpp:255-278 | the streaming loop builds exactly `StatsJson(session)`: `[]` without a session, else the bracketed comma-joined stats objects |
| NativeSession.Native.GetSwarmInfo | audyn0/android/app/src/main/cpp/LibtorrentWrapper.cpp:288-313 | the search loop returns exactly `SwarmJson(session, hash)`: `{}` without a session or a match, else the swarm object of the first match |
| NativeSession.Native.RemoveTorrentByInfoHash | audyn0/android/app/src/main/cpp/LibtorrentWrapper.cpp:315-333 | true exactly when there is a session, the hash decodes and the torrent is present; then exactly that torrent is removed and the rest keep their order; otherwise nothing changes |
| NativeSession.GetInfoHash | audyn0/android/app/src/main/cpp/LibtorrentWrapper.cpp:69-91 | `""` for an unreadable or unparsable file, else the lowercase hex of its info-hash |
| NativeSession.InfoHashIdentifier | audyn0/android/app/src/main/cpp/LibtorrentWrapper.cpp:280-286 | every non-empty `getInfoHash` answer is 40 lowercase hex digits that `hex_to_sha1` turns back into the info-hash |
| NativeSession.WithoutMembers | audyn0/android/app/src/main/cpp/LibtorrentWrapper.cpp:328 | after removal the torrents are exactly those with another info-hash |
| NativeSession.RemoveAtIsWithout | audyn0/android/app/src/main/cpp/LibtorrentWrapper.cpp:326-328 | removing the handle `find_torrent` found is the same as filtering out its info-hash |
| NativeSession.WithoutMissing | audyn0/android/app/src/main/cpp/LibtorrentWrapper.cpp:326-327 | filtering an absent info-hash changes nothing |
| NativeSession.RemoveAtKeepsDistinct | audyn0/android/app/src/main/cpp/LibtorrentWrapper.cpp:328 | taking one torrent out keeps the others' info-hashes distinct |
| NativeSession.WithoutKeepsDistinct | audyn0/android/app/src/main/cpp/LibtorrentWrapper.cpp:315-333 | removal keeps info-hashes distinct and loses exactly one torrent when the hash is present, none otherwise |
| NativeSession.StatsJsonShape | audyn0/android/app/src/main/cpp/LibtorrentWrapper.cpp:255-278 | stats are `[]` with no session or no torrents, are always bracketed, and otherwise hold the objects and `n − 1` commas |
| NativeSession.StatsJsonAt | audyn0/android/app/src/main/cpp/LibtorrentWrapper.cpp:264-274 | torrent `i`'s stats object (name or `Unknown`) stands verbatim in session order, preceded by `[` or a single comma |
| NativeSession.SwarmEmptyIff | audyn0/android/app/src/main/cpp/LibtorrentWrapper.cpp:295-312 | the swarm answer is `{}` exactly when there is no session or no handle's hex info-hash equals the argument |
| NativeSession.SwarmCaseSensitive | audyn0/android/app/src/main/cpp/LibtorrentWrapper.cpp:299 | an argument with any character outside `0123456789abcdef`, upper-case digits included, never matches |
| NativeSession.SwarmFindsTorrent | audyn0/android/app/src/main/cpp/LibtorrentWrapper.cpp:297-309 | with distinct info-hashes, asking for torrent `k`'s hex info-hash describes torrent `k` |
| Dispatch.Plan | audyn0/android/app/src/main/kotlin/com/example/audyn/MainActivity.kt:22-181 | the `when` table up to the wrapper call: it calls the wrapper only for the seven listed names (always for `getTorrentStats` and `getAllTorrents`), answers unlisted names not-implemented, and otherwise answers only `INVALID_ARGUMENT` with a message |
| Dispatch.Handle | audyn0/android/app/src/main/kotlin/com/example/audyn/MainActivity.kt:22-181 | exactly one response unless the wrapper call throws a non-`Exception`; errors carry `INVALID_ARGUMENT` or `ERROR`; success only comes from a wrapper call |
| Dispatch.StringsOf | audyn0/android/app/src/main/kotlin/com/example/audyn/MainActivity.kt:138-140 | `filterIsInstance<String>()`: never longer than the list, and every kept string is an element of it |
| Dispatch.ByNameArgument | audyn0/android/app/src/main/kotlin/com/example/audyn/MainActivity.kt:24-60 | the by-name methods call the wrapper exactly when the argument is a non-empty string or a map with a non-empty string `torrentName`, passing that name; otherwise they answer "torrentName is required" |
| Dispatch.MapMethodsNeedMap | audyn0/android/app/src/main/kotlin/com/example/audyn/MainActivity.kt:62-68 | `addTorrent`, `createTorrentInAppDir` and `createTorrent` answer any non-map argument with "Expected map arguments" |
| Dispatch.RequiredFields | audyn0/android/app/src/main/kotlin/com/example/audyn/MainActivity.kt:62-165 | each map method calls the wrapper exactly when its required paths are non-empty strings, and otherwise answers with its own `INVALID_ARGUMENT` message |
| Dispatch.AddTorrentFlags | audyn0/android/app/src/main/kotlin/com/example/audyn/MainActivity.kt:70-97 | the paths are passed as given; each flag is the map's Boolean when present, else `false` for seedMode, announce and enableTrackers and `true` for the others |
| Dispatch.StringsOfAppend | audyn0/android/app/src/main/kotlin/com/example/audyn/MainActivity.kt:138-140 | the tracker filter distributes over concatenation, so order is kept |
| Dispatch.StringsOfCount | audyn0/android/app/src/main/kotlin/com/example/audyn/MainActivity.kt:138-140 | the filter keeps each string element as often as it occurs, and never grows the list |
| Dispatch.StringsOfMembers | audyn0/android/app/src/main/kotlin/com/example/audyn/MainActivity.kt:138-140 | a string is in the tracker array exactly when it is an element of the list |
| Dispatch.StringsOfAllStrings | audyn0/android/app/src/main/kotlin/com/example/audyn/MainActivity.kt:138-140 | a list of strings only is passed on unchanged |
| Dispatch.CreateTrackers | audyn0/android/app/src/main/kotlin/com/example/audyn/MainActivity.kt:123-177 | both create methods pass a null tracker array when `trackers` is absent or not a list, and else the list's strings in order |
| Dispatch.WrapperUse | audyn0/android/app/src/main/kotlin/com/example/audyn/MainActivity.kt:24-177 | a validation answer never consults the wrapper; a normal return becomes success with that value; an `Exception` becomes `ERROR` with its message; any other throwable escapes with no response |
| Dispatch.NotImplementedIff | audyn0/android/app/src/main/kotlin/com/example/audyn/MainActivity.kt:179-181 | exactly the unlisted method names get not-implemented |
| Dispatch.DefaultFlagsSettings | audyn0/android/app/src/main/kotlin/com/example/audyn/MainActivity.kt:78-97 | an `addTorrent` request with no flags leads the native side to turn on DHT, LSD and uTP, turn off UPnP and NAT-PMP, and skip seed mode |

## Left out

- JNI marshalling is not modelled. This covers `GetStringUTFChars`/`NewStringUTF`, modified UTF-8, and local references. Strings are sequences of characters.
- Hex.Decode: counts characters, where `hex.size() != 40` counts modified-UTF-8 bytes. A 40-character argument holding a non-ASCII character is rejected by the native code but may decode in the model; for example `"1é"` followed by 38 zeros decodes, with byte 0 equal to 1.
- The string leak on `createTorrent`'s early return is not modelled. When `fs::exists` fails, the function returns before releasing the two JNI strings.
- Logging (`LOGI`/`LOGE`) is not modelled; it has no observable result.
- `getVersion` is not modelled; it is a constant string built from the library version.
- `session_mutex` and its lock guards are left out, and every call is sequential.
- The `alert_mask` setting is left out, because nothing in the model observes alerts.
- File reads are parameters: `file` is the content, or `None` when the file cannot be opened. This covers `std::ifstream` and `fs::exists`.
- `bdecode`, `lt::torrent_info`, `lt::add_files`, the `lt::create_torrent` constructor and `lt::hasher` are foreign library code. They are the parameters `parse`, `layout` and `sha1`.
- Whatever makes `add_torrent` fail is the boolean parameter `engineError`.
- NativeSession.Native.AddTorrent: the result for a duplicate torrent is the parameter `duplicateIsError`. It depends on the libtorrent version's default `duplicate_is_error` flag, which the model does not fix.
- Pieces.CreateTorrent: stops at the draft it would generate. `ct.generate()`, `lt::bencode` and writing the output file are not modelled.
- Pieces.CreateTorrent: a failed output write is not detected, so `createTorrent` reports true even then.
- The `catch (...)` of `createTorrent` is covered only for the failures modelled here: a rejected layout and piece hashing.
- NativeSession.Native.RemoveTorrentByInfoHash: removal takes effect at once. libtorrent removes a torrent asynchronously after `remove_torrent` returns.
- NativeSession.Native.AddTorrent: puts a new torrent last, and the stats list torrents in that order. libtorrent does not promise any order for `get_torrents()`; 1.2 lists them from a hash table keyed by info-hash. So "stats in the order torrents were added" is an assumption of the model.
- NativeSession.Native.RemoveTorrentByInfoHash: keeps the other torrents in their order, under the same assumption about `get_torrents()`.
- NativeSession.Native.AddTorrent: fixes a torrent's status at the `reported` value when it is added. Nothing later changes it, so the model does not capture statuses that evolve as the engine runs.
- The status numbers (state, peers, rates) are those reported when the torrent was added. They are rendered as plain decimal integers.
- `LibtorrentWrapper.kt` is not modelled; it only declares external functions. It does not match the two modelled files:
  - Its `addTorrent` has nine parameters where the native function has eight. `Dispatch.NativeFlags` drops `enablePeerExchange` to bridge the two.
  - It lacks several methods the activity calls.

  The dispatcher therefore treats the wrapper as an abstract function.
- The wrapper methods `removeTorrentByName`, `getTorrentSavePathByName`, `getAllTorrents` and `createTorrentInAppDir` have no native body in `LibtorrentWrapper.cpp`. Only their calls from the dispatcher are modelled.
- Dispatch.Handle: a `Throwable` that is not an `Exception` is modelled as escaping with no response. What the method channel then does with it is not modelled.
- Map keys that are not strings are not modelled. The dispatcher looks up only string keys, so they never affect a response.
- The Android/Flutter lifecycle (`onCreate`, channel registration) and the Gradle build files are not modelled.
