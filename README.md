# Music player: transport state and linked playlist

This project models the core of a small console music player for `.wav` files
(`main.cpp`). The core has two parts.

- **Transport** (module `Transport`, file `transport.dfy`). It holds the process-wide
  `current_music_file`, the file last started, which is empty when there is none.
  Play, pause, stop and the menu's resume entry ask the sound service to start,
  purge or stop playback. They change the stored track only as the code does:
  - a fresh play that finds the file and is accepted by the service sets it;
  - a stop with a track set clears it, even when the service refuses the stop;
  - pause and resume never change it.

  Class `Player` holds the state. `PlayMusic`, `PauseMusic` and `StopMusic` mirror
  their C++ functions; `ResumeMusic` mirrors the resume branch of the menu
  (main.cpp:224-232), which calls `PlayMusic` in resume mode. Each
  method's postcondition ties the new state, the request issued and the status
  line to a pure effect function (`PlayEffect`, `PauseEffect`, `StopEffect`,
  `ResumeEffect`). The contracts of those functions and the session lemmas over
  sequences of commands (`Final`) state what the source promises.
- **Playlist** (module `Playlists`, file `playlist.dfy`). It is a singly linked chain
  of `Song` nodes with `front` and `rear` pointers, used as a deque without removal
  at the rear. Class `Playlist` keeps three ghost fields:
  - `Contents`, the file names from front to rear;
  - `Spine`, the nodes in the same order;
  - `Repr`, its footprint.

  `Valid()` is the object invariant. It says the nodes are distinct and carry
  `Contents` in order, each links to the next, the last one links to null, and
  `front`/`rear` are the first and the last node (both null when empty). Insertion
  and removal rewrite the pointers in place. The show and play-all walks are
  `while` loops over a `current` pointer. The destructor is a loop of front removals.

Outside facts are parameters (module `Host`, file `host.dfy`):
- File existence is membership in a `Disk`, the set of paths that exist at the moment of the call.
- The sound service's answer is a `bool` for each transport call.
- In the playlist's blocking playback, `answers(k)` is the service's answer to the k-th request of the run.

Every printed status line is returned as a value (`Report`, `Listing`, `PlaybackReport`, or the
`added`/`removed` flags).

Resume checks again that the stored track's file exists: the menu passes
`current_music_file` as the file name (main.cpp:227), and `PlayMusic` tests it before
anything else (main.cpp:16). So resuming a track whose file has gone issues no
request and reports the generic play failure.

## Model

| member | source | states |
|---|---|---|
| `Transport.PlayEffect` | main.cpp:15-35 | a request is issued exactly when the file exists; it asks for the named file, or for the stored track when resuming; the stored track changes only on a fresh play of an existing file that the service accepted, and then to the named file, so a missing or refused play leaves it unchanged; "Playing" is reported exactly when the file exists and the service accepted |
| `Transport.PauseEffect` | main.cpp:37-49 | the stored track never changes; with no track nothing is requested; otherwise a purge is requested and "Paused" is reported exactly when the service accepted |
| `Transport.StopEffect` | main.cpp:51-64 | afterwards the stored track is empty in every case; a stop is requested exactly when a track was set; "Stopped" is reported exactly when a track was set and the service accepted |
| `Transport.ResumeEffect` | main.cpp:224-232 | the stored track never changes; with no track it reports "nothing to resume"; a request for the stored track is issued exactly when a track is set and its file exists; "Playing" is reported exactly when, in addition, the service accepted |
| `Transport.Player.constructor` | main.cpp:8 | the stored track starts empty |
| `Transport.Player.PlayMusic` | main.cpp:15-35 | new stored track, request and report are those of `PlayEffect` on the old track |
| `Transport.Player.PauseMusic` | main.cpp:37-49 | new stored track, request and report are those of `PauseEffect` on the old track |
| `Transport.Player.StopMusic` | main.cpp:51-64 | new stored track, request and report are those of `StopEffect` on the old track |
| `Transport.Player.ResumeMusic` | main.cpp:224-232 | new stored track, request and report are those of `ResumeEffect` on the old track |
| `Transport.StepTrack` | main.cpp:15-64 | a single command leaves the stored track alone, clears it only if it is a stop, or sets it to a file that command found and started |
| `Transport.MissingPlayThenResume` | main.cpp:15-19 | from the empty track, a play of a missing file leaves the track empty, and a following resume requests nothing and reports that there is nothing to resume (main.cpp:226-231) |
| `Transport.TrackComesFromPlay` | main.cpp:8-64 | after any session of commands the stored track is the initial one, empty, or a file that some play command of the session found and started |
| `Transport.TrackFromEmptyWasPlayed` | main.cpp:8-35 | starting from the empty track, a non-empty track at the end was started by a play command of the session |
| `Transport.PauseResumeKeepTrack` | main.cpp:21-49 | any session of pauses and resumes leaves the stored track unchanged |
| `Transport.StopClears` | main.cpp:51-64 | any session that ends with a stop ends with the empty track, whether or not the service refused the stop |
| `Transport.PlayThenPauseResume` | main.cpp:15-49 | a successful play followed only by pauses and resumes leaves the played file as the stored track |
| `Playlists.Song.constructor` | main.cpp:69-74 | a new node carries the file name and links to null |
| `Playlists.Playlist.constructor` | main.cpp:80 | a new playlist is valid and empty, and its footprint is fresh |
| `Playlists.Playlist.EndsAgree` | main.cpp:76-90 | under the invariant, `front` is null exactly when `rear` is null, exactly when the playlist is empty; the rear node links to null |
| `Playlists.Playlist.ChainFromFront` | main.cpp:67-77 | following `next` k times from `front` reaches the node holding the k-th file name; after one step fewer than the length it reaches `rear`; after the length it reaches null |
| `Playlists.Playlist.IsEmpty` | main.cpp:88-90 | true exactly when the contents are empty |
| `Playlists.Playlist.EnqueueFront` | main.cpp:92-109 | adds exactly when the file exists; then contents `s` become `[f] + s`, `front` is a fresh node holding `f`, and on an empty list the new node is both front and rear; otherwise the contents and both end pointers are unchanged |
| `Playlists.Playlist.EnqueueRear` | main.cpp:111-128 | adds exactly when the file exists; then contents `s` become `s + [f]`, `rear` is a fresh node holding `f`, and on an empty list the new node is both front and rear; otherwise the contents and both end pointers are unchanged |
| `Playlists.Playlist.DequeueFront` | main.cpp:130-144 | removes exactly when the list is non-empty; then contents `[x] + s` become `s`, and `rear` becomes null exactly when `s` is empty; on an empty list nothing changes; the removed node leaves the footprint |
| `Playlists.Playlist.Destroy` | main.cpp:82-86 | the removal loop terminates, since each removal shortens the contents by one; it ends with an empty list whose end pointers are both null |
| `Playlists.Playlist.ShowPlaylist` | main.cpp:146-158 | changes nothing; reports an empty playlist exactly when it is empty, and otherwise lists exactly the contents in front-to-rear order |
| `Playlists.Playlist.PlayPlaylist` | main.cpp:160-180 | changes nothing; the files requested are a prefix of the contents in order; every request but the last was accepted; an empty list requests nothing; "finished" means every song was requested and accepted; "aborted" names the last song requested, which the service refused |

## Left out

- Console output is not modelled as text. Each `std::cout` status line is returned as a value instead. The banner, the prompts, `system("cls")`, the menu loop, reading the choice and the file name, and the invalid-choice message (main.cpp:183-278) are console glue. Their only logic is dispatch to the operations above.
- `PlaySoundA` and the audio it produces are left out. This covers asynchronous playback, purging, stopping, and blocking until a song ends. The model keeps only the request issued and the service's yes/no answer, which is a parameter.
- `FileExists` does not model the `std::ifstream` open. Existence is membership in the `Disk` passed to each call.
- `delete` does not model memory reclamation. The removed node only leaves `Repr`.
- `Song.filename` is a `const` field here. The C++ member is not const, but nothing assigns it after construction.
