# DoorPi call handling and snapshots in Dafny

This project models three pieces of DoorPi, the door-intercom daemon:

- **Event dispatch in the PJSUA2 SIP phone** (`fire_event`). Every event is
  fired asynchronously. Unless the caller asks for async only, it is also
  fired synchronously under a shadow name with the suffix `_S`. Both firings
  carry the source `sipphone.pjsua` and the same `extra` map, which holds
  `remote_uri` only when one is given.
- **The PJSUA2 callbacks**:
  - the incoming-call decision (reject non-admins with 403, busy-reject with
    486 while another call is active, otherwise accept with 200 and make the
    call current);
  - the CONFIRMED and DISCONNECTED call-state bookkeeping of the phone's
    current, ringing and waiting calls;
  - the DTMF matcher, which accumulates digits and compares them with the
    configured codes;
  - the search for the first audio and video media of a call.
- **The snapshot actions**:
  - the snapshot directory lookup;
  - the timestamped file name `%Y-%m-%d %H:%M:%S.jpg`;
  - the sorted listing of snapshot files;
  - the cleanup that keeps only the newest `snapshot_keep` files;
  - the two capture actions (URL fetch and Pi camera), each of which writes
    a snapshot and then cleans up;
  - their `repr`/`str` strings.

Layout:

- `wrappers.dfy`: `Option` and `Result`.
- `string_order.dfy`: Python's `str` ordering (code point by code point,
  where a proper prefix is smaller), and `sorted` over a set of names. It
  also has zero-padded decimal rendering, together with the theorem that
  rendered fixed-width fields sort like the numbers they render.
- `pjsua2.dfy`:
  - the event records;
  - an event handler class that logs every firing in order;
  - `fire_event` as a pure specification (`DualFire`) and as a module-level
    method that takes the handler as a parameter (`FireDualEvent`).
- `callbacks.dfy`:
  - the phone's call bookkeeping, as a class `Sipphone`;
  - each call's own state (DTMF buffer, disconnect flag), as a class
    `CallCallback`;
  - the callbacks, as methods over both. Native PJSUA2 actions (answer,
    hangup, dial DTMF) are appended to an effect log.
- `snapshot.dfy`:
  - the snapshot directory as a class holding the configuration values and a
    map from entry name to kind (file or directory);
  - the naming, listing and cleanup specification functions, and the
    lemmas about them.

Calls are identified by an abstract `CallId`. Comparing two `CallCallback`
objects in the source becomes comparing their ids.

## Model

| member | source | states |
|---|---|---|
| Pjsua2.Extra | doorpi/sipphone/from_pjsua2/__init__.py:23 | the extra map has the key `remote_uri` exactly when a URI is given, bound to that URI, and no other key |
| Pjsua2.DualFire | doorpi/sipphone/from_pjsua2/__init__.py:22-27 | the first event is the named one, fired asynchronously; a second, synchronous event under the `_S` name follows exactly when not async-only; every event has source `sipphone.pjsua` and the same extra map |
| Pjsua2.DualFireObserved | doorpi/sipphone/from_pjsua2/__init__.py:25-27 | the names observed are `{name}` or `{name, name_S}`, and exactly one firing is asynchronous |
| Pjsua2.ShadowNameRoundTrip | doorpi/sipphone/from_pjsua2/__init__.py:19-27 | stripping the `_S` suffix from a shadow name gives back the original event name |
| Pjsua2.FireDualEvent | doorpi/sipphone/from_pjsua2/__init__.py:11-27 | the handler's log grows by exactly the dual-fire sequence and by nothing else |
| Callbacks.IncomingDecision | doorpi/sipphone/from_pjsua2/callbacks.py:31-47 | a non-admin caller is rejected; an admin is busy-rejected exactly when a current call exists and is active; accepted exactly when admin and no current call is active |
| Callbacks.OutcomesDistinct | doorpi/sipphone/from_pjsua2/callbacks.py:34-46 | different decisions answer with different SIP status codes and fire different events |
| Callbacks.OnIncomingCall | doorpi/sipphone/from_pjsua2/callbacks.py:22-50 | the call is answered once with the decision's status; BeforeCallIncoming and then the outcome event are dual-fired, both carrying the remote URI and also on the reject path; the call becomes current exactly when accepted, and nothing else changes |
| Callbacks.HangupOthersSpec | doorpi/sipphone/from_pjsua2/callbacks.py:99-100 | only ringing calls other than this one are hung up, and every one of them is |
| Callbacks.ConfirmHangsUpSelfAsWritten | doorpi/sipphone/from_pjsua2/callbacks.py:93-96 | as written, when the current call is this call, CONFIRMED hangs up this call |
| Callbacks.ConfirmHangupsSpec | doorpi/sipphone/from_pjsua2/callbacks.py:93-100 | corrected: CONFIRMED never hangs up this call, hangs up only the previous current call and ringing calls, and hangs up every one of them that is not this call |
| Callbacks.AcceptedThenConfirmed | doorpi/sipphone/from_pjsua2/callbacks.py:43-98 | for a new incoming call whose current-call entry follows the incoming decision, the as-written CONFIRMED branch hangs that call up exactly when it was accepted; the corrected one never does |
| Callbacks.RemoveFirstAbsent | doorpi/sipphone/from_pjsua2/callbacks.py:110-111 | removing a call that is not ringing leaves the list unchanged |
| Callbacks.RemoveFirstPresent | doorpi/sipphone/from_pjsua2/callbacks.py:110-111 | removing a ringing call drops exactly its first occurrence: what remains is the elements before it followed by the elements after it |
| Callbacks.RemoveFirstMultiset | doorpi/sipphone/from_pjsua2/callbacks.py:110-111 | removing a ringing call takes exactly one copy of it out of the multiset of ringing calls |
| Callbacks.DisconnectFiresAtMostOne | doorpi/sipphone/from_pjsua2/callbacks.py:113-119 | a disconnect fires OnCallDisconnect exactly for a confirmed call, OnCallUnanswered exactly for an unconfirmed call when no call is left ringing, and at most one asynchronous event in all |
| Callbacks.DtmfStep | doorpi/sipphone/from_pjsua2/callbacks.py:150-169 | a code fires exactly when the extended buffer equals a configured code; the buffer is reset exactly when no configured code properly extends it, and otherwise kept; `11` is dialled on a match and `#` on a reset without a match |
| Callbacks.MatchDtmf | doorpi/sipphone/from_pjsua2/callbacks.py:153-159 | the loop's `exact` is true exactly when the buffer is one of the codes, and its `prefix` is true exactly when some code properly extends the buffer |
| Callbacks.DtmfRunPrefix | doorpi/sipphone/from_pjsua2/callbacks.py:150-169 | typing any proper prefix of a configured code from an empty buffer leaves exactly that prefix in the buffer |
| Callbacks.TypedCodeFires | doorpi/sipphone/from_pjsua2/callbacks.py:150-169 | typing a configured code digit by digit from an empty buffer fires that code on its last digit |
| Callbacks.FirstAudioVideo | doorpi/sipphone/from_pjsua2/callbacks.py:63-74 | each result is the index of the first medium of that type, or none when there is no such medium |
| Callbacks.CallCallback.OnCallState | doorpi/sipphone/from_pjsua2/callbacks.py:76-121 | corrected: CONFIRMED acts as the corrected branch below (never hanging up this call); DISCONNECTED acts as below; every other state changes nothing |
| Callbacks.CallCallback.OnConfirmed | doorpi/sipphone/from_pjsua2/callbacks.py:88-103 | sets the disconnect flag; hangs up the previous call (corrected) and every other ringing call; makes this call current; empties ringing and waiting; dual-fires OnCallConnect |
| Callbacks.CallCallback.HangUpPrevious | doorpi/sipphone/from_pjsua2/callbacks.py:93-96 | corrected: hangs up and clears the current call only when it is another call; a current call equal to this call is kept |
| Callbacks.CallCallback.HangUpRinging | doorpi/sipphone/from_pjsua2/callbacks.py:99-100 | the loop appends exactly the hangups of the ringing calls other than this one |
| Callbacks.CallCallback.OnDisconnected | doorpi/sipphone/from_pjsua2/callbacks.py:104-119 | clears the current call if it is this call, otherwise drops this call's first occurrence from ringing, then fires the events chosen as above |
| Callbacks.CallCallback.OnDtmfDigit | doorpi/sipphone/from_pjsua2/callbacks.py:147-169 | the buffer, the fired `OnDTMF_` event (async only, with the remote URI) and the dialled tones follow one matcher step; afterwards the buffer is empty or a proper prefix of a configured code |
| StringOrder.SortedElements | doorpi/actions/snapshot.py:57 | the listing is sorted strictly ascending and holds exactly the given names |
| StringOrder.PaddedOrder | doorpi/actions/snapshot.py:50 | zero-padded numbers of one width compare as strings the way they compare as numbers |
| StringOrder.RenderOrder | doorpi/actions/snapshot.py:50 | fixed-width fields joined by fixed separators compare as strings the way the field tuples compare lexicographically, and are equal exactly when the tuples are |
| Snapshot.SnapshotNameOrder | doorpi/actions/snapshot.py:50 | one snapshot name sorts before another exactly when its time is earlier to the second; names are equal exactly when the times agree to the second |
| Snapshot.NextPathSameSecond | doorpi/actions/snapshot.py:50 | two captures in the same second get the same path, and captures in different seconds get different paths |
| Snapshot.BasePath | doorpi/actions/snapshot.py:40-41 | a missing or empty `snapshot_path` is a ValueError; otherwise it is the configured path |
| Snapshot.SnapshotStore.GetBasePath | doorpi/actions/snapshot.py:36-44 | the result is the configured path, or ValueError when it is missing or empty; the directory exists afterwards exactly when it did before or the path is valid, and its contents are unchanged |
| Snapshot.SnapshotStore.GetNextPath | doorpi/actions/snapshot.py:46-52 | returns the base path joined with the timestamp name and records it as `last_snapshot`; on failure nothing is recorded |
| Snapshot.ListFiles | doorpi/actions/snapshot.py:55-57 | the listing is sorted, holds exactly the regular files of the directory, and holds each once |
| Snapshot.SnapshotStore.ListAll | doorpi/actions/snapshot.py:54-57 | returns the sorted file listing of the base directory, or the base-path error; a directory that did not exist before lists nothing |
| Snapshot.SortedUnique | doorpi/actions/snapshot.py:57 | two strictly sorted listings with the same names are the same listing |
| Snapshot.DoomedOldest | doorpi/actions/snapshot.py:28-29 | with a positive keep, cleanup targets the oldest files, all but the newest `keep`, or none when there are at most `keep` |
| Snapshot.Undeleted | doorpi/actions/snapshot.py:29-34 | the names reported as not deleted are exactly the targeted names whose deletion fails |
| Snapshot.PruneIdempotent | doorpi/actions/snapshot.py:28-29 | after a cleanup in which every deletion succeeds, the listing is the newest `keep` files, and a second cleanup deletes nothing |
| Snapshot.NewestSurvivesPrune | doorpi/actions/snapshot.py:28-29 | the newest snapshot is never deleted by cleanup |
| Snapshot.SnapshotStore.Cleanup | doorpi/actions/snapshot.py:18-34 | a non-positive keep does nothing; a missing path fails; otherwise the oldest files are unlinked, failures are skipped, and the directory becomes the pruned one |
| Snapshot.SnapshotStore.UnlinkAll | doorpi/actions/snapshot.py:29-34 | the loop unlinks each targeted file except those whose deletion fails, and reports those in order |
| Snapshot.SnapshotStore.TakeUrlSnapshot | doorpi/actions/snapshot.py:67-75 | a failed fetch changes nothing and records no path; otherwise the directory exists and the next path is recorded; a name taken by a directory fails with nothing written; a stream cut short leaves the partial file and skips cleanup; a complete write is followed by cleanup |
| Snapshot.SnapshotStore.TakePicamSnapshot | doorpi/actions/snapshot.py:92-99 | a camera that cannot open changes nothing and records no path; otherwise the directory exists and the next path is recorded; a failed capture, or a directory already holding the name, writes nothing and skips cleanup; a capture writes the file and then cleans up |
| Snapshot.Describe | doorpi/actions/snapshot.py:77-78 | the description of a URL action contains its URL |
| Snapshot.DescribeInjective | doorpi/actions/snapshot.py:77-102 | two actions have the same description exactly when they are the same action |
| Snapshot.ReprRoundTrip | doorpi/actions/snapshot.py:77-105 | each action's `repr` parses back to the same action |

## Left out

- The call lock and the threads of the asynchronous event handler. Every
  callback is modelled as one atomic step.
- `onCallMediaState` (connecting audio devices, loudness levels). It is
  floating-point device configuration of the native library. Only its helper,
  the first-audio/video search, is modelled.
- Native PJSUA2 calls (`answer`, `hangup`, `dialDtmf`). They are recorded as
  effects in a log, and their consequences in the native library are not
  modelled.
- The order between native effects and fired events is not captured, because
  they go to two separate logs. Within each log the order is exact.
- Callbacks.OnIncomingCall: states BeforeCallIncoming before the outcome
  event, but not that the answer comes between them, because the answer goes
  to the effect log and the events to the handler's log.
- `getInfo()` is not modelled. The call state and the remote URI are
  parameters or fields.
- `is_admin` and `isActive`, whose code lives in the phone glue. The glue is
  not part of this model. They are a set of admin URIs and a set of active
  call ids.
- `instantiate`. It only constructs the phone glue object, which is not part
  of this model.
- Logging, in every file.
- The HTTP request, the chunked streaming, the camera and the `picamera`
  import probe in the constructor. They are modelled as boolean outcomes
  given as parameters: the fetch or camera open succeeded, and the stream or
  capture completed.
- `datetime.now()` is a parameter.
- Snapshot names pad `%Y` to four digits for every year. The C library
  may leave years before 1000 unpadded, so for those years the name may
  differ from the source's.
- `pathlib` path normalisation is not modelled. Paths are joined as strings
  with `/`.
- Which `unlink` calls fail is given as a set of names.
- OS errors other than a failed deletion, a name that is already a
  directory, or a write cut short mid-stream are not modelled. Concurrent
  changes to the directory are not modelled either.
- The action registry behind `@action` is not part of this model.
- Callbacks.CallCallback.OnConfirmed: follows the corrected hang-up of the
  previous call (see Findings) rather than the code as written. The code as
  written is modelled by Callbacks.ConfirmHangupsAsWritten.
- Callbacks.CallCallback.OnCallState: its CONFIRMED case is OnConfirmed's,
  so it too follows the corrected hang-up rather than the code as written.
- Callbacks.CallCallback.HangUpPrevious: models the corrected lines, which
  keep a current call equal to this call; as written, the source hangs it up.

## Findings

| source | as written | input that shows it | evidently intended | confidence | as-written member | corrected member |
|---|---|---|---|---|---|---|
| doorpi/sipphone/from_pjsua2/callbacks.py:93-96 | on CONFIRMED, hangs up `current_call` whenever it is set, even when it is this very call | an admin's incoming call with no active call is accepted, which sets `current_call` to it; the same call then reaches CONFIRMED and hangs itself up | hang up only a previous current call that is a different call (the comment there says this should not be possible) | medium, not executed | Callbacks.ConfirmHangsUpSelfAsWritten | Callbacks.ConfirmHangupsSpec |
