# SensePro backend: verified model

A Dafny model of the stateful algorithms in the SensePro backend, and proofs of what they
promise over whole sessions: attendance from a camera, engagement per zone, review flags for
exams, the QR fallback for students the camera cannot see, and the registry of camera workers.

`dafny verify dfyconfig.toml` checks everything.

## What is modelled

**Presence.** `PresenceFsm` is the hysteresis machine PRESENT / UNVERIFIED / ABSENT with its
interval log, `Recorder` turns its transitions into database rows, `Pipeline` drives it from
tracked faces under an embedding budget, `Capture` is the session loop around both, and
`Harness` is the evaluation that measures presence from frame gaps. `Runs` proves that the
three ways of measuring presence agree for every sequence of frames.

**Tracking.** `Geometry` is box overlap, `Tracker` the greedy frame-to-frame assignment.
`TrackLives` says what becomes of a track in one update, in one frame of the pipeline, and in a
run in which its face goes missing and comes back. `TrackerLaws` proves that an update returns
one track per detection, never reuses an id, and is the obvious matching, whatever the order of
the detections, when there is one. `NamingLaws` follows the tracks through the pipeline: ids
never come back in a run, a still scene is named in time, and, when the gallery knows some faces
and not others, exactly which of them get a name. `RefreshLaws` goes on from there: which tracks
are embedded again once everybody has a name.

**Proctoring.** `HeadPose` is the latch for a sustained off-screen pose, `PhoneGate` the
temporal confirmation of phones, `Cooldown` the per-key cooldown, `Proctor` the engine that
combines them for a frame.

**Engagement.** `Zones` streams frames into zone windows and is proved equal to a batch
specification that counts over the list of a window's frames; `ZoneLaws` says what windows and
rows mean, and `ZoneCounts` what their numbers say of the observations themselves. `Summary` is
the two-level weighted mean over stored rows, proved equal to one order-free sum; `SummaryLaws`
holds its laws.

**Identity.** `Matcher` is the cosine matcher over exact reals, with the Cauchy-Schwarz
inequality and its equality case.

**QR check-in.** `QrProtocol` is a transition system whose steps are single database requests of
issuers, claims, selfie requests and cameras, in any interleaving, with requests that fail and
requesters that abandon what they began. `QrLaws` proves what holds always, what serialised
requests guarantee, and gives runs that show the difference. `QrFrames` says what a step changes,
entry by entry, and so how long exactly a token stays claimable and a window open. `QrConditions`
gives the exact condition of each promise that can fail, for a step and for every run.
`RateLimit` is the sliding-window limiter.

**Camera workers.** `RtspRegistry` holds one method per critical section of the worker registry;
`RtspLaws` is about every sequence of them.

## How to read it

Code that updates objects is a class whose methods are proved against specification functions
on histories; a ghost field of the class (`log`, `history`, `flags`, `frames`, `events`,
`added`, `admitted`, `workers`) is that history. The laws are lemmas about the histories, for
all inputs. The QR handlers and the camera's verifier share tables rather than objects and
interleave at every request, so they are steps of one transition system instead. The database's
clock is part of its state; the capture timestamps a camera goes by come with its requests.
Times, scores and coordinates are exact reals. Where the outcome depends on something outside
(the detector, the embedder, a database answer, a clock) it is a parameter: `look` is the
identity the gallery would give each detection, `reply` is what the row writer answers, `now`
and `ts` are readings of a clock.

Places where the behaviour differs from what a comment or document says, with the exact condition
under which the code does what is said:

- `backend/app/ws.py:105` says window expiry writes nothing. Expiry is checked when a window is
  read, not when it is satisfied (`backend/app/store.py:491-500`), so a row can follow an expired
  window: `QrLaws.ExpiredWindowCanGetARow`. All windows of a run are satisfied in time exactly if
  every update that satisfies one finds it open: `QrConditions.InTimeIff`. That is not enough for the
  rows, which are written by a later request (`QrConditions.SlowWriteIsLate`): all rows of a run are
  written before their window expires exactly if every request that writes one finds it unexpired:
  `QrConditions.RowsInTimeIff`. What holds in any case is `QrLaws.SatisfiedWindowsWereSeenOpen`.
- `backend/app/store.py:355-357` says only one token is ever live. Expiring and minting are two
  requests. A run keeps one live token per session exactly if every mint finds none:
  `QrConditions.OneLiveTokenIff`; to the issuer, exactly if no token another issue minted since its
  own expiry request is still live: `QrConditions.MintIsAloneIff`. Serialised issues meet this
  (`QrLaws.SerialIssuesKeepOneLive`), racing ones need not (`QrLaws.RacingIssuesLeaveTwoLive`).
- `backend/app/store.py:461-463` says one attempt per session. Looking and opening are two requests,
  and a lookup that fails counts as no attempt. A run opens at most one window per student and
  session exactly if every window opened finds no attempt: `QrConditions.OneWindowIff`; a claim that
  meets one had no answer to its lookup, or was overtaken by another claim of the student:
  `QrConditions.MeetingAttemptIsAnotherClaim`. Serialised claims with answered lookups meet this
  (`QrLaws.SerialClaimsGiveOneRow`); `QrLaws.RacingClaimsOpenTwoWindows` and
  `QrLaws.UnansweredLookupOpensTwoWindows` show the rest.
- `backend/vision/pipeline.py:98-106` says a face that comes into view is named within a second or
  two. While the same faces stay in view, one the gallery knows is ever named exactly if fewer than
  `budget` faces it does not know come before it in the list, and then at the rate they leave:
  `NamingLaws.NamedIffRoomIsLeft`, `NamingLaws.NamedAtTheRateLeft`.
- `backend/vision/pipeline.py:143` says tracks a pass has no budget for stay due and the next frame
  continues. The pass starts a new interval all the same (line 159), and the next one begins at the
  head of the list again, where everybody is due by then. Once a pass of a still scene of known faces
  has left everybody with a name, exactly the first `budget` tracks are ever embedded again
  (`RefreshLaws.OnlyTheFirstAreRefreshed`, `RefreshLaws.TheSecondIsLeftOut`), so a pass gets to
  everybody exactly if the budget covers the list: `RefreshLaws.EverybodyIsRefreshedIff`. A student's
  sightings then stand still exactly as long as no pass takes one of those faces for the student:
  `RefreshLaws.SightingsStandStillIff`.
- `backend/engagement/vnei.py:14-20` describes coverage by distinct tracks over the window; the code
  uses the peak of a single frame. The peak is the number of distinct tracks exactly if one frame
  shows them all: `ZoneLaws.PeakIsUnionIff`. A row's coverage is as described exactly then, or if the
  peak fills the enrolment: `ZoneLaws.CoverageIsOfDistinctTracksIff`; `ZoneLaws.OneAfterTheOther` is
  a window for which it is not.
- `backend/engagement/vnei.py:146-221`: a flush from outside does not reset the start of the window, so
  it splits a window in two with one start: `ZoneLaws.StartsAreChained` says exactly when.
- `backend/app/rtsp_api.py:298-311` answers "stopping", but a worker that has yet to open its camera
  sets the status back to running (`RtspLaws.StoppingIsOverwritten`). The answer stays "stopping"
  until the worker is over, whatever happens, exactly if the worker was in its loop when stopped:
  `RtspLaws.StoppingStaysIff`.

## Model

| member | source | states |
|---|---|---|
| PresenceFsm.PresenceFSM.Close | backend/presence/fsm.py:77-80 | the student's open interval goes to the log, ended now; nobody else's view changes |
| PresenceFsm.PresenceFSM.ObserveStudent | backend/presence/fsm.py:39-59 | one student's turn in a pass is one step of the state machine, reported exactly if the state changed |
| PresenceFsm.PresenceFSM.Observe | backend/presence/fsm.py:37-60 | a pass gives every student on the roster one step and one report at most, and leaves everybody else alone |
| PresenceFsm.PresenceFSM.EndSession | backend/presence/fsm.py:62-65 | closes every open interval at the given time, leaving states as they were |
| PresenceFsm.StateIsHistory | backend/presence/fsm.py:37-60 | PRESENT iff seen in the last pass, UNVERIFIED iff last seen k passes ago with 1 <= k < threshold, else ABSENT; an interval is open iff the state is not ABSENT, and is in that state |
| PresenceFsm.ClosedTimeIsCredit | backend/presence/fsm.py:37-80 | closed at any time, the intervals of a state add up to the gaps between passes after which the history puts the student in that state, for any timestamps |
| PresenceFsm.PresentTimeFollowsSightings | backend/presence/fsm.py:67-72 | PRESENT time is exactly the time between each pass that saw the student and the next, independently of the miss threshold |
| PresenceFsm.PresentCredit | backend/presence/fsm.py:37-60 | crediting gaps by PRESENT state and crediting gaps after sightings are the same sum |
| Recorder.SessionRecorder.Record | backend/app/store.py:1297-1308 | each student's rows grow by that student's transitions in order: close the open row, open the next at the same instant |
| Recorder.SessionRecorder.Close | backend/app/store.py:1310-1315 | closes exactly the open rows; every row ever opened has then been closed exactly once, and closing again closes nothing |
| Recorder.RunMirrors | backend/app/store.py:1297-1308 | after any passes the rows mirror the machine: the last row is its state, still open, the others hold its closed intervals, with ABSENT rows beside them |
| Recorder.RowsAreIntervals | backend/app/store.py:1284-1315 | both closed at one time, the rows other than ABSENT are the machine's intervals in order, and all rows tile the time from the first sighting to the close without gap or overlap |
| Recorder.FirstRowAtFirstSighting | backend/app/store.py:1297-1308 | a student has rows iff ever seen, and the first row starts at the first sighting |
| Recorder.SessionRecorder.ClosedOnce | backend/app/store.py:1310-1315 | with nothing open every row has exactly one close call |
| Runs.PassesAreSpaced | backend/vision/pipeline.py:138-159 | in any run consecutive passes are at least the re-identification interval apart |
| Runs.AbsentNeverEarly | backend/presence/fsm.py:55-59 | with passes spaced by an interval, ABSENT comes no sooner than threshold intervals after the last sighting |
| Runs.RunsNeverReportAbsentEarly | backend/vision/pipeline.py:138-159 | hence in every run of the pipeline ABSENT waits threshold re-identification intervals |
| Runs.StateBySightings | backend/presence/fsm.py:39-59 | by the passes since the last sighting a student is PRESENT after none, UNVERIFIED after fewer than the threshold, ABSENT after as many or more |
| Runs.NeverSeenIsAbsent | backend/presence/fsm.py:39-59 | a student never seen is ABSENT |
| Runs.FourPasses | backend/presence/fsm.py:37-80 | seen, missed, missed and seen again under a threshold of two: the intervals this leaves, and their times |
| Runs.FrameCreditIsCredit | backend/eval/harness.py:108-116 | crediting every frame gap equals crediting pass gaps: frames between passes change nothing |
| Runs.ThreeMeasurementsAgree | backend/eval/harness.py:100-126 | for every run, closed at the last frame: summed frame gaps, the machine's PRESENT intervals, the recorder's PRESENT rows and the time following sightings are equal |
| Runs.RecordsCountMatches | backend/vision/pipeline.py:124-152 | over a whole run a student's record counts exactly the embeddings that matched them, and the attended students are those with at least threshold of them |
| Capture.ClosingTheBooks | backend/app/ws.py:440-449 | when machine and recorder are closed together their books agree for the student, on times, order and totals |
| Capture.RunSession | backend/app/ws.py:439-507 | a session from first frame to end message leaves, for every student, rows that are the machine's intervals, tiled, with PRESENT time equal to the seconds the machine reports and to the time following sightings, every row closed once |
| Harness.HitsAreTruthFrames | backend/eval/harness.py:117-123 | recognised truth frames never outnumber truth frames |
| Harness.EvalPresence | backend/eval/harness.py:100-126 | the measured time of each student is the machine's PRESENT time closed at the last frame (nothing for a student off the roster), and the hit rate is hits over truth frames |
| Harness.TotalAdds | backend/eval/harness.py:86-87 | the length of the truth is the sum of the lengths of its windows |
| Harness.FramesAreCounted | backend/eval/harness.py:117-123 | truth frames are the frames inside a window, ends included, and hits those of them after which the student counted as present |
| Attendance.CumulativeAttendance.Observe | backend/presence/attendance.py:42-53 | the records always sum up the whole history: count, first and last time, best score |
| Attendance.CumulativeAttendance.AttendedIdsAreAttended | backend/presence/attendance.py:63-65 | the reported set is exactly the students sighted at least threshold times |
| Attendance.SightingsAreCounted | backend/presence/attendance.py:42-53 | a student's total is the number of sightings logged for them |
| Attendance.RecordSays | backend/presence/attendance.py:42-53 | a record's first and last times enclose all sightings and are those of two, its best score is the greatest or zero, its total their number |
| Attendance.AttendedNeverFlipsBack | backend/presence/attendance.py:8-12 | whoever has attended stays attended, whatever is sighted later |
| Geometry.IouSymmetric | backend/vision/tracker.py:13-21 | overlap does not depend on the order of the boxes |
| Geometry.IouInUnitInterval | backend/vision/tracker.py:13-21 | overlap of well-formed boxes lies between 0 and 1 |
| Geometry.IouOneIffSame | backend/vision/tracker.py:13-21 | boxes with area overlap fully exactly if they are the same box |
| Geometry.IouOfApart | backend/vision/tracker.py:13-21 | disjoint boxes have overlap 0 |
| Geometry.OverlapIsTheCommonBox | backend/vision/tracker.py:13-21 | boxes that are not apart have a common box, exactly the points in both, whose area is what they overlap by |
| Geometry.IouIsTheShare | backend/vision/tracker.py:13-21 | the measure is the share of the common area in the area of both together |
| Tracker.IoUTracker.FindBest | backend/vision/tracker.py:34-40 | the search returns the unassigned track of greatest overlap at or above the threshold, the latest on a tie, and none only if all are below |
| Tracker.IoUTracker.Update | backend/vision/tracker.py:31-58 | an update is the greedy assignment: picked tracks continue, the rest age and drop out after max_misses, unpicked detections get consecutive new ids |
| Tracker.GreedyIsUnique | backend/vision/tracker.py:33-51 | the greedy picks are determined by tracks and detections |
| Tracker.PicksAreInjective | backend/vision/tracker.py:36-37 | no track is continued by two detections |
| TrackerLaws.DetectionsGetDistinctIds | backend/vision/tracker.py:33-51 | two detections of a frame never share an id |
| TrackerLaws.DetectionIsKept | backend/vision/tracker.py:33-58 | every detection is in the new table as the track it became |
| TrackerLaws.LiveTrackIsDetection | backend/vision/tracker.py:53-58 | every returned track is one of the detections |
| TrackerLaws.OneTrackPerDetection | backend/vision/tracker.py:58 | an update returns exactly as many tracks as detections |
| TrackerLaws.KeptTracks | backend/vision/tracker.py:53-57 | no kept track exceeds max_misses, and every id is an old one or above every old one |
| NamingLaws.IdsNeverComeBack | backend/vision/tracker.py:41-45 | over a whole run, an id that was handed out and has left the table is in no later table |
| TrackLives.PickIsGreatestOverlap | backend/vision/tracker.py:33-40 | a detection picks the unassigned entry it overlaps most, at or above the threshold, the latest on a tie, and none only if all are below |
| TrackLives.PickedContinues | backend/vision/tracker.py:46-51 | a picked entry goes on with the detection's box, no miss, and its own id and identity |
| TrackLives.MissedAges | backend/vision/tracker.py:53-57 | an entry nobody picked is kept unchanged with one miss more, and its id goes exactly if that exceeds max_misses |
| TrackLives.UnmatchedIsNew | backend/vision/tracker.py:41-45 | a detection that picked nothing starts an entry of its own without an identity |
| TrackLives.MissedForAWhile | backend/vision/tracker.py:53-57 | in every run a face no detection overlaps keeps its track, box and identity for exactly as many frames as max_misses allows, and then its id is gone |
| TrackLives.ComesBackAsItself | backend/vision/tracker.py:33-57 | a face missing for no longer than that and detected again where it was goes on under its own id and identity |
| TrackerLaws.GreedyRealisesTheMatching | backend/vision/tracker.py:31-51 | when overlap at or above the threshold is a partial matching, the picks are exactly that matching |
| TrackerLaws.OrderDoesNotMatter | backend/vision/tracker.py:31-51 | then the same box gets the same id under any order of the detections |
| TrackerLaws.StillSceneKeepsIds | backend/vision/tracker.py:31-58 | a scene of disjoint boxes with area keeps all ids and makes none, under any permutation of the detections |
| TrackerLaws.StillRunKeepsIds | backend/vision/tracker.py:31-58 | and so over a run of any length, shuffled differently in every frame |
| Pipeline.SessionPipeline.Serve | backend/vision/pipeline.py:126-136 | a round embeds, in list order, the tracks that want it until the budget is spent, names them, and logs a sighting per match |
| Pipeline.SessionPipeline.RunPass | backend/vision/pipeline.py:140-159 | a pass refreshes old identities on what is left of the budget, then gives the machine everyone the tracks in view carry |
| Pipeline.SessionPipeline.ProcessFrame | backend/vision/pipeline.py:110-168 | a frame tracks, serves nameless tracks first, runs a pass exactly if the interval has passed since the last one, and reports the PRESENT students of the roster |
| PipelineLaws.FrameBudget | backend/vision/pipeline.py:124-152 | at most budget embeddings per frame and no track twice |
| PipelineLaws.FrameSightings | backend/vision/pipeline.py:126-152 | a frame adds to a student's sightings exactly the number of its embeddings that matched them |
| TrackLives.FirstRoundEmbeds | backend/vision/pipeline.py:126-136 | a track is embedded in the first round exactly if it is in view without a name and fewer than budget such come before it; it then has the gallery's identity and score and the time of the frame |
| TrackLives.SecondRoundEmbeds | backend/vision/pipeline.py:140-152 | on a pass a track is embedded exactly if it is in view, was not embedded in the first round, was never embedded or an interval ago, and the budget left lasts up to it |
| TrackLives.FreshIsLeftAlone | backend/vision/pipeline.py:126-152 | a track out of view, or with a name younger than the interval, is not touched by a frame |
| TrackLives.PassSeesFacesInView | backend/vision/pipeline.py:153-159 | the students a pass reports to the machine are exactly those a face in view carries |
| TrackLives.SightingsAreMatches | backend/vision/pipeline.py:135-136 | a sighting is logged exactly for every face embedded that matched, with the gallery's score and the frame's time |
| TrackLives.PassIff | backend/vision/pipeline.py:138-159 | a frame of a run is a pass exactly if the interval has gone by since the last one, or there was none yet |
| PipelineLaws.NamedAtBudgetRate | backend/vision/pipeline.py:126-136 | with stable tracks and every embedding matching, each frame names exactly budget more of the nameless tracks until none is left |
| PipelineLaws.NamedInTime | backend/vision/pipeline.py:98-106 | so everybody is named within ceil(n / budget) frames |
| PipelineLaws.UnknownFacesStarveTheRest | backend/vision/pipeline.py:126-159 | budget faces nobody knows at the head of the list are embedded every frame, and no later track is ever embedded, pass or no pass |
| NamingLaws.NamedAtTheRateLeft | backend/vision/pipeline.py:98-136 | when the gallery knows some faces and not others, a known face with u strangers and n nameless known faces before it is named within any k frames with k * (budget - u) > n |
| NamingLaws.NamedIffRoomIsLeft | backend/vision/pipeline.py:98-159 | a nameless known face, given as many frames as there are nameless known ones up to it, has its name exactly if fewer than budget strangers are before it; otherwise it was never embedded |
| NamingLaws.StillSceneIsStable | backend/vision/pipeline.py:110-136 | in any run of the pipeline, from a frame on whose scene is still, everybody stays in view and in place, whatever the order of the detections |
| NamingLaws.StillSceneIsNamedInTime | backend/vision/pipeline.py:98-136 | so if every face matches, everybody in a still scene is named within ceil(n / budget) frames of the run |
| RefreshLaws.SettledFrame | backend/vision/pipeline.py:138-159 | with everybody named and last embedded no later than the last pass, a pass embeds exactly the first budget tracks of the list and any other frame none |
| RefreshLaws.SettledSightings | backend/vision/pipeline.py:140-152 | such a pass adds to a student's sightings the faces among the first budget that the gallery takes for them, any other frame nothing |
| RefreshLaws.OnlyTheFirstAreRefreshed | backend/vision/pipeline.py:140-159 | from the first pass that leaves everybody in a still scene of known faces named, every pass of the run embeds the same first budget tracks, and all others keep identity and last embedding for good |
| RefreshLaws.EverybodyIsRefreshedIff | backend/vision/pipeline.py:140-159 | a later pass embeds everybody exactly if the budget covers the whole list |
| RefreshLaws.TheSecondIsLeftOut | backend/vision/pipeline.py:140-159 | two named faces and a budget of one: the first is refreshed by the pass at 10, nobody by the frame at 11, and the first again by the pass at 15 |
| RefreshLaws.SightingsStandStillIff | backend/vision/pipeline.py:140-159 | from that pass on a student's sightings stay the same exactly as long as no pass takes one of those first faces for the student |
| HeadPose.HeadOrientationMonitor.Observe | backend/proctor/suppression.py:162-211 | a sample triggers exactly if it completes an away run of sustain_s while no earlier sustained run is still latched; the reported observation is classified by the same history |
| HeadPose.HeadOrientationMonitor.NoteMissing | backend/proctor/suppression.py:213-219 | a frame without landmarks breaks both running durations and keeps the latch |
| HeadPose.HeadOrientationMonitor.Retain | backend/proctor/suppression.py:221-228 | tracks out of view are forgotten, the others unchanged |
| HeadPose.OneMoreSample | backend/proctor/suppression.py:185-203 | how one sample moves away time, neutral time and latch, as facts about the history |
| HeadPose.HeadOrientationMonitor.WhatPosesAre | backend/proctor/suppression.py:168-183 | which poses are away and which neutral, by the thresholds the monitor was given |
| HeadPose.LastingIff | backend/proctor/suppression.py:185-199 | a pose has lasted a time exactly if the samples reach back unbroken that far |
| HeadPose.TriggersIff | backend/proctor/suppression.py:185-199 | a sample triggers exactly if its away run has lasted sustain_s and since every earlier such sample a neutral run lasted recovery_s |
| HeadPose.TriggerEndsAwayRun | backend/proctor/suppression.py:185-191 | a trigger ends an unbroken away run of at least sustain_s |
| HeadPose.TriggersAreSpaced | backend/proctor/suppression.py:162-219 | between two triggers lie an unbroken neutral run of recovery_s and then the second's away run, so with ordered times they are at least sustain_s + recovery_s apart |
| PhoneGate.EvidenceIsExplained | backend/proctor/engine.py:147-174 | evidence always stands for frames with strictly increasing times on a track in view throughout, each sighting compatible with the one before |
| PhoneGate.ConfirmedPhoneWasSightedTwice | backend/proctor/engine.py:147-164 | a confirmation names at least two, and at least the configured number of, distinct frames with strictly increasing times inside the window; repeating a frame never confirms |
| PhoneGate.CompatibleIff | backend/proctor/engine.py:176-190 | two sightings are compatible exactly if the centre moved by at most 1.25 face diagonals, in whole numbers |
| PhoneGate.SeenThroughoutIsConfirmed | backend/proctor/engine.py:147-164 | conversely a phone sighted twice, and the configured number of times, on a track in view, moving compatibly, at increasing times inside the window, is confirmed |
| Proctor.NearestTrack | backend/proctor/engine.py:210-239 | the first face with the least score among those the phone is in reach of, or none |
| Proctor.SampleShowsThePose | backend/proctor/engine.py:86-101 | a face is sampled as away exactly if its pose passes one of the monitor's thresholds, and as missing exactly without a pose |
| Proctor.SelectPhones | backend/proctor/engine.py:109-122 | each track gets the most confident phone nearest to it, the earliest on a tie, and no track gets one without |
| Proctor.SecondAttributionAgrees | backend/proctor/engine.py:138-145 | attributing a confirmed phone again to its own track finds that track |
| Proctor.InReachIff | backend/proctor/engine.py:214-232 | which faces a phone is in reach of, in whole numbers |
| Proctor.ReachIs | backend/proctor/engine.py:214-239 | a face in reach scores by the lesser of the measures that apply to it |
| Proctor.KeptPhoneIsInReach | backend/proctor/engine.py:103-115 | a phone kept for a track is a cell phone in reach of its face, of no face with a lesser score and no earlier one with the same |
| Proctor.PhoneInReachIsKept | backend/proctor/engine.py:103-115 | a cell phone in reach of one face more than of any other gives that face's track a phone at least as confident |
| Proctor.KeptPhoneIsFirstOfTheBest | backend/proctor/engine.py:113-115 | of the phones put to a track the first of the most confident is kept |
| Proctor.PersonsAreCounted | backend/proctor/engine.py:131 | the persons counted are the detections labelled so |
| Proctor.ProctorEngine.RaiseFlag | backend/proctor/engine.py:192-207 | a flag is persisted, and returned with its key, time and student, exactly if every earlier flag of the key is at least the cooldown ago and the write is not refused; otherwise nothing changes |
| Proctor.ProctorEngine.ConfirmPhones | backend/proctor/engine.py:124-130 | each kept phone counts once towards its own track, and exactly the confirmed ones are reported and asked to be flagged |
| Proctor.ProctorEngine.PruneEvidence | backend/proctor/engine.py:166-174 | evidence survives exactly on tracks in view sighted inside the window |
| Proctor.ProctorEngine.Observe | backend/proctor/engine.py:63-136 | a pass requests a head-pose flag for a face exactly if its pose newly sustained, a phone flag exactly if its phone is confirmed by the frames so far, an extra-person flag exactly if more persons than faces were detected; a row is written for each exactly if every earlier flag of its key is at least the cooldown ago and the write is not refused, with the time of the pass and the student of the face |
| Proctor.ConfirmedPhoneIsReal | backend/proctor/engine.py:107-174 | whatever the engine confirms was kept for that very track in at least two passes, and at least the configured number, with strictly increasing times inside the window, none after the last pass if times do not go back; the track was in view in every pass in between, and the phone moved compatibly from each sighting to the next |
| Proctor.EngineFlagsAreSpaced | backend/proctor/engine.py:192-207 | the engine's persisted flags of a key are cooldown_s apart and at most floor(L / cooldown_s) + 1 lie in any span of length L |
| Cooldown.FlagsAreSpaced | backend/proctor/engine.py:192-207 | two persisted flags of a key are at least cooldown_s apart in the order of persisting, whatever the order of the timestamps |
| Cooldown.LatestIsEnough | backend/proctor/engine.py:193-196 | remembering only the latest flag decides as checking the whole history would |
| Cooldown.RequestPersistsIff | backend/proctor/engine.py:192-207 | a request adds its flag exactly if every flag of the key is at least cooldown_s ago and the write is not refused, and otherwise changes nothing |
| Cooldown.PassPersists | backend/proctor/engine.py:192-207 | the requests of one pass add a flag for exactly the requested keys of which that holds, with the time of the pass, and nothing else |
| Cooldown.FlagRate | backend/proctor/engine.py:192-207 | any span of length L holds at most floor(L / cooldown_s) + 1 persisted flags of a key |
| Cooldown.RequestsKeepAdmitted | backend/proctor/engine.py:192-207 | requests of any kind, refused writes included, keep the history one in which every flag had cooled down |
| Zones.Note | backend/engagement/vnei.py:122-136 | one observation adds one to exactly the counts it shows something for |
| Zones.ZoneAggregator.Absorb | backend/engagement/vnei.py:118-143 | folding a frame in turns the batch record of the window's frames into that of the frames and this one, in every zone |
| Zones.ZoneAggregator.Close | backend/engagement/vnei.py:146-221 | an occupied zone gets a row exactly if it is reportable and the write is not refused, otherwise it is withheld for its reason; counters start over |
| Zones.ZoneAggregator.Observe | backend/engagement/vnei.py:102-144 | the streaming record equals the batch specification of the current window after every event, and rows come out exactly when a window closes |
| Zones.ZoneAggregator.Flush | backend/engagement/vnei.py:146-221 | an outside flush closes the current window and leaves its start in place |
| ZoneCounts.BandOfABox | backend/engagement/vnei.py:93-100 | which zone a box is in, by the bands of the frame |
| ZoneCounts.WhatIsCounted | backend/engagement/vnei.py:122-130 | a frame adds to a zone's counts exactly the numbers of its observations there that are seen, whose pose could tell, that attend, and that show a lowered head |
| ZoneCounts.WhatElseIsCounted | backend/engagement/vnei.py:131-136 | likewise for phones and stillness, of the observations that could tell |
| ZoneCounts.IndexExtremes | backend/engagement/vnei.py:122-130 | a row's index is 1 exactly if every observation of the zone whose pose could tell attends, and 0 exactly if none does |
| ZoneCounts.RowStates | backend/engagement/vnei.py:177-206 | a row's start, length, enrolment and coverage, and when it has no phone or stillness rate |
| ZoneCounts.WithheldWhy | backend/engagement/vnei.py:157-176 | a zone is withheld for privacy exactly if no frame shows k_min of its tracks at once, and for want of poses exactly if it is not for privacy and yet not reportable |
| ZoneCounts.EveryOccupiedZoneAppears | backend/engagement/vnei.py:153-209 | of a closed window exactly the zones with an observation appear, reported or withheld for their reason |
| ZoneLaws.WindowsPartitionTheFrames | backend/engagement/vnei.py:111-116 | closed windows and the open one, in order, are exactly the frames observed |
| ZoneLaws.StartsAreChained | backend/engagement/vnei.py:111-116 | a window a frame closed is followed by one starting at least window_s later, one an outside flush closed by one with the same start |
| ZoneLaws.StartsAreSpaced | backend/engagement/vnei.py:111-116 | without outside flushes any two window starts are at least window_s apart |
| ZoneLaws.FramesAreTimely | backend/engagement/vnei.py:111-116 | frames of a window come less than window_s after its start, which is its first frame's time unless a flush came before |
| ZoneLaws.FlushSplitsAWindow | backend/engagement/vnei.py:146-221 | a flush in mid-session gives two windows with one start |
| ZoneLaws.ObservationsAreConserved | backend/engagement/vnei.py:122-127 | over all windows and zones exactly as many observations are counted as came in |
| ZoneLaws.PeakIsTheMaximum | backend/engagement/vnei.py:137-143 | the peak is the greatest number of distinct tracks any one frame shows, and some frame shows it |
| ZoneLaws.PeakAtMostUnion | backend/engagement/vnei.py:40-48 | the peak never exceeds the number of track ids seen over the window |
| ZoneLaws.PeakIsUnionIff | backend/engagement/vnei.py:40-48 | the peak is the number of track ids seen over the window exactly if some frame shows all of them |
| ZoneLaws.CoverageIsOfDistinctTracksIff | backend/engagement/vnei.py:14-20 | a row's coverage is the capped share of the distinct tracks of its window exactly if some frame shows them all or the peak fills the enrolment |
| ZoneLaws.OneAfterTheOther | backend/engagement/vnei.py:14-20 | two tracks in one frame each: the peak is one, the distinct tracks are two, and the row says half the enrolment is covered instead of all |
| ZoneLaws.ReportedIffEnoughAtOnce | backend/engagement/vnei.py:155-180 | an occupied zone is reportable iff some frame shows k_min tracks at once, some frame k_min poses at once, and a pose was seen at all |
| ZoneLaws.RowsAreTrue | backend/engagement/vnei.py:155-206 | a row's n_tracked is the peak and at least k_min, enrolment is at least that, coverage and rates lie between 0 and 1 and are the true shares of the window's counts |
| Summary.GroupByWindow | backend/app/store.py:45-51 | rows with session and start are grouped by both, in order; others are left out |
| Summary.AddRows | backend/app/store.py:65-80 | the inner loop adds the weighted sums and weights of the rows to the totals |
| Summary.ReportRowsContribute | backend/app/store.py:55-56 | the report rows of a window are exactly its class rows, or all its rows if it has none |
| Summary.Summarise | backend/app/store.py:37-96 | the grouped accumulation equals, for exactly the sessions with a filed row, one order-free sum over contributing rows |
| SummaryLaws.OrderDoesNotMatter | backend/app/store.py:37-96 | any permutation of the rows gives the same summaries |
| SummaryLaws.OnlyOwnRowsMatter | backend/app/store.py:45-57 | a session's summary is computed from that session's rows alone |
| SummaryLaws.ClassRowsTakePrecedence | backend/app/store.py:55-56 | a further zone row of a window that has a class row changes nothing |
| SummaryLaws.SummaryIsBetween | backend/app/store.py:82-95 | both averages lie between the least and the greatest value that weighs in |
| SummaryLaws.WeightsFollowEvidence | backend/app/store.py:66-80 | coverage, and attention without pose observations, weigh in proportion to the window's length; pose observations weigh alone; a missing length counts as 60 seconds |
| SummaryLaws.WeightsAre | backend/app/store.py:66-80 | what a row weighs, exactly, missing, zero and negative columns included |
| SummaryLaws.OneRowIsItsOwnSummary | backend/app/store.py:37-96 | a session of one row has that row's averages and weights and one window |
| SummaryLaws.SummarisedIff | backend/app/store.py:45-63 | a session is summarised exactly if one of its rows names it and a window, neither empty |
| SummaryLaws.WindowsAreNamed | backend/app/store.py:45-64 | the windows counted are the distinct ones the session's rows name |
| SummaryLaws.DisjointWindowsAdd | backend/app/store.py:53-96 | for disjoint windows the window counts and weights add, and the joint average is the weighted one |
| Matcher.CauchySchwarz | backend/vision/embedding_store.py:40 | Cauchy-Schwarz, with equality exactly for vectors one of which is a multiple of the other |
| Matcher.UnitIsNormal | backend/vision/embedding_store.py:120-123 | a normalised vector has length 1, or is the zero vector |
| Matcher.ScoreInRange | backend/vision/embedding_store.py:40-42 | scores of normalised vectors lie between -1 and 1 |
| Matcher.FullScoreIffSame | backend/vision/embedding_store.py:40-42 | two normalised vectors score 1 exactly if they are the same unit vector |
| Matcher.AlignedIffOneWidth | backend/vision/embedding_store.py:21-24 | ids and rows stay aligned exactly if all templates have one width |
| Matcher.RefusedTemplateShiftsIds | backend/vision/embedding_store.py:21-24 | an add of the class that fails for its width leaves its id behind, after which a match returns a neighbour's id |
| Matcher.ArgMax | backend/vision/embedding_store.py:41 | the first row of greatest score |
| Matcher.EmbeddingStore.Add | backend/vision/embedding_store.py:21-24 | appends the id, then the normalised row unless the width differs, which is an error |
| Matcher.EmbeddingStore.Match | backend/vision/embedding_store.py:26-43 | nothing for an empty gallery, an error for another width, otherwise the first best row's id if it reaches the threshold |
| Matcher.MatchScoreInRange | backend/vision/embedding_store.py:26-43 | every score returned lies between -1 and 1, and an accepted id reached the threshold |
| Matcher.MatchMeans | backend/vision/embedding_store.py:40-43 | for every probe of the gallery's width the score is the greatest over the rows, an id comes back exactly if some row reaches the threshold, and it is that of the first row with the greatest score |
| Matcher.NoMatchAtAll | backend/vision/embedding_store.py:26-39 | an empty gallery matches nobody; a match is an error exactly if the gallery is not empty and the width differs |
| Matcher.OffAxisFaceIsRecognised | backend/vision/embedding_store.py:26-43 | a probe that scores 0.8 is accepted under a threshold of 0.45 and not under 0.85 |
| Matcher.EnrolledDirectionMatches | backend/vision/embedding_store.py:26-43 | a positive multiple of an enrolled nonzero template scores exactly 1, is accepted for every threshold up to 1, and the id owns a template of exactly that direction |
| Matcher.FullScoreMeansSameDirection | backend/vision/embedding_store.py:26-43 | conversely a score of 1 is only given to the owner of a template of the probe's direction |
| RateLimit.RateLimiter.Hit | backend/app/qr_api.py:69-83 | a hit is admitted iff fewer than limit of all hits ever admitted for the key lie in the last window_s, though the queue forgets old ones; other keys are untouched |
| RateLimit.RecentAreCounted | backend/app/qr_api.py:77-82 | the rule counts exactly the hits no older than window_s |
| RateLimit.AdmitsIff | backend/app/qr_api.py:77-83 | so a hit is admitted exactly if the limit-th hit before it, if any, is more than window_s ago |
| RateLimit.AdmittedAreSpread | backend/app/qr_api.py:69-83 | admitted hits i and i + limit are more than window_s apart |
| RateLimit.BurstIsLimited | backend/app/qr_api.py:69-83 | no stretch of window_s, wherever it starts, holds more than limit admitted hits |
| QrProtocol.StepKeeps | backend/app/qr_api.py:163-388 | every step of every participant keeps the protocol invariant |
| QrFrames.TokenAfterStep | backend/app/store.py:355-429 | a token changes only when its own session is issued for or closed, which makes it expire now if unused, or when a claim that looked it up uses it unexpired |
| QrFrames.OtherSessionsKeepTheirTokens | backend/app/store.py:369-379 | issuing for a session or closing its QR leaves every other session's tokens as they were |
| QrFrames.NewTokenIsMinted | backend/app/store.py:355-379 | a new token is what a mint makes of an issue under way, for its session and one lifetime |
| QrFrames.IssueAfterStep | backend/app/store.py:355-379 | an issue under way lasts until it mints or is abandoned, for the session it began with |
| QrFrames.NewIssueExpires | backend/app/store.py:355-379 | an issue begins exactly with an expiry request of its own |
| QrFrames.StaysLiveIff | backend/app/store.py:355-429 | in every run a claimable token stays so exactly until it expires, is used, or its own session is issued for or closed |
| QrFrames.WindowAfterStep | backend/app/store.py:491-500 | a window changes only when an agent at work on it satisfies it, once |
| QrFrames.NewWindowIsOpened | backend/app/qr_api.py:191-197 | a new window is what a claim opens that has used its token, for its student and session and one lifetime from the use |
| QrFrames.StaysOpenIff | backend/app/store.py:446-500 | in every run an open window stays so exactly until it expires or an agent at work on it satisfies it |
| QrFrames.ClaimAfterStep | backend/app/qr_api.py:163-197 | a claim in flight changes by its own requests only, and how |
| QrFrames.NewClaimIsLookedUp | backend/app/qr_api.py:163-190 | a claim starts exactly with a lookup that finds the token and, if answered, no window of the student in its session |
| QrFrames.AgentAfterStep | backend/app/qr_api.py:290-361 | a selfie request or camera at work changes by its own requests only, and how |
| QrFrames.ReadingBegins | backend/app/qr_api.py:290-297 | a selfie request is taken up exactly for an open window of its student |
| QrFrames.TakingBegins | backend/app/ws.py:115-129 | a camera takes up a window exactly for a student on a list younger than the refresh interval, and takes the student off it |
| QrFrames.RefreshListsOpenWindows | backend/app/store.py:431-444 | an answered refresh lists exactly the students with an open window in the session, one that fails nobody |
| QrLaws.RowsHaveTheirOwnWindows | backend/app/qr_api.py:357-361 | in every interleaving each qr row has a satisfied window of its own, of the same session and student, satisfied before the row |
| QrLaws.WindowsHaveTheirOwnTokens | backend/app/store.py:394-429 | each window has a token of its own, of its session, used by its student before the token expired |
| QrLaws.NoMoreRowsThanTokens | backend/app/store.py:394-513 | at most as many qr rows as satisfied windows, windows as used tokens |
| QrLaws.SetOnceForAll | backend/app/store.py:394-500 | over any run a token is used at most once and a window satisfied at most once |
| QrLaws.UndisturbedClaimOpensAWindow | backend/app/qr_api.py:127-197 | from any state, issuing and claiming for a student without an attempt opens that student's window, tied to the token and lasting one window lifetime |
| QrLaws.UndisturbedSelfieGetsARow | backend/app/qr_api.py:290-361 | from any state, a selfie request alone with an open window satisfies it and writes the student's row |
| QrLaws.UndisturbedCameraGetsARow | backend/app/ws.py:115-129 | from any state, a camera recognising a student whose open window it has just been told of satisfies it and writes the student's row |
| QrLaws.SecondWritesNothing | backend/app/qr_api.py:357-361 | whoever comes second to a window writes nothing |
| QrLaws.SatisfiedWindowsWereSeenOpen | backend/app/ws.py:115-129 | whoever satisfied a window had seen it open and unexpired, and set to work less than the refresh interval later by its own clock, hence, where that clock keeps up with the database, less than that after expiry |
| QrLaws.ExpiredWindowCanGetARow | backend/app/qr_api.py:290-361 | a window read in time and satisfied after it expired still gets its row |
| QrLaws.SerialClaimsGiveOneRow | backend/app/qr_api.py:188-197 | with serialised claims, abandoned ones included, and answered lookups a student gets at most one window and one qr row per session |
| QrLaws.RacingClaimsOpenTwoWindows | backend/app/qr_api.py:191-197 | two racing claims of one student open two windows |
| QrLaws.UnansweredLookupOpensTwoWindows | backend/app/store.py:461-478 | a failed lookup counts as no attempt and lets a second window open |
| QrLaws.SerialIssuesKeepOneLive | backend/app/store.py:355-379 | with serialised issues, abandoned ones included, at most one token of a session is claimable at any time |
| QrLaws.RacingIssuesLeaveTwoLive | backend/app/store.py:355-367 | two interleaved issues leave two claimable tokens |
| QrConditions.StepKeepsOneLiveIff | backend/app/store.py:355-379 | a step keeps at most one live token per session exactly if it is not a mint that finds a live one of its session |
| QrConditions.OneLiveTokenIff | backend/app/store.py:355-379 | every moment of a run has at most one live token per session exactly if every mint of the run finds none |
| QrConditions.MintIsAloneIff | backend/app/store.py:355-379 | a mint finds none exactly if no token of the session minted since the issue's own expiry request is still live |
| QrConditions.SerialIssuesMintAlone | backend/app/store.py:355-379 | every mint of serialised issues finds none |
| QrConditions.RacingIssuesDoNotMintAlone | backend/app/store.py:355-367 | a mint of the two interleaved issues finds one |
| QrConditions.StepKeepsOneWindowIff | backend/app/store.py:461-478 | a step keeps at most one window per student and session exactly if it does not open one for a student who has one |
| QrConditions.OneWindowIff | backend/app/qr_api.py:188-197 | a run gives every student at most one window per session exactly if every window it opens is the student's first |
| QrConditions.MeetingAttemptIsAnotherClaim | backend/app/qr_api.py:188-197 | a claim that meets an attempt had its lookup unanswered, or another claim of the same student opened its window between that lookup and now |
| QrConditions.WhoOpensFirst | backend/app/qr_api.py:188-197 | serialised claims with answered lookups open first windows only; the racing claims and the unanswered lookup do not |
| QrConditions.StepKeepsInTimeIff | backend/app/store.py:491-500 | with all satisfied windows in time, a step keeps it so exactly if it does not satisfy a window that is no longer open |
| QrConditions.InTimeIff | backend/app/store.py:491-500 | every satisfied window of a run was satisfied before it expired exactly if every satisfying update finds its window open |
| QrConditions.RowsAreOfWindowsInTime | backend/app/qr_api.py:357-361 | then every qr row is of a window satisfied before it expired |
| QrConditions.SlowSelfieFindsItClosed | backend/app/qr_api.py:290-361 | a selfie request slower than its window does not meet that condition |
| QrConditions.StepKeepsRowsInTimeIff | backend/app/ws.py:118-129 | a step leaves every qr row written before its window expired exactly if they all were and it does not write one whose window has expired |
| QrConditions.RowsInTimeIff | backend/app/ws.py:105-129 | every qr row of a run was written before its window expired exactly if every request that wrote one found the window unexpired |
| QrConditions.SlowWriteIsLate | backend/app/qr_api.py:357-361 | a selfie request that satisfies its window in time but writes late: every satisfying update finds its window open, and the row is written after expiry |
| RtspRegistry.Registry.ReserveSession | backend/app/rtsp_api.py:264-281 | a start succeeds exactly if the session does not show as running, and registers its own worker |
| RtspRegistry.Registry.TakeBack | backend/app/rtsp_api.py:283-288 | a start that fails takes its reservation back |
| RtspRegistry.Registry.CameraOpened | backend/app/rtsp_api.py:180-187 | a worker that has opened its camera marks its own entry running |
| RtspRegistry.Registry.Report | backend/app/rtsp_api.py:121-128 | telemetry updates the worker's own entry and counts the frame |
| RtspRegistry.Registry.Remember | backend/app/rtsp_api.py:70-74 | remembers a status and keeps the youngest 32 |
| RtspRegistry.Registry.FinaliseWorker | backend/app/rtsp_api.py:225-244 | the last section of a worker moves its own entry in one piece: right after, the session answers with its final status |
| RtspRegistry.Registry.StopSession | backend/app/rtsp_api.py:298-311 | a stop finds exactly the sessions that show as running and sets their signal |
| RtspRegistry.RunningIffActive | backend/app/rtsp_api.py:314-326 | a session answers as running exactly while it has an entry |
| RtspRegistry.FinalisedIsAnswered | backend/app/rtsp_api.py:225-244 | the step that ends a worker finds that worker's own entry, removes it and leaves its final status |
| RtspRegistry.StepKeeps | backend/app/rtsp_api.py:88-311 | every critical section keeps entries and unfinished workers matched, remembered statuses final, distinct, apart from entries and at most 32 |
| RtspLaws.OneWorkerPerSession | backend/app/rtsp_api.py:264-281 | in every run two unfinished workers serve different sessions, and each one's session shows its own entry |
| RtspLaws.EntryAfterStep | backend/app/rtsp_api.py:88-311 | an entry changes by the steps of its own session only: marked running, counting frames, stopped, and removed by a failed start or the worker's end |
| RtspLaws.NewEntryIsReserved | backend/app/rtsp_api.py:264-281 | a new entry is a start's, as it was asked for |
| RtspLaws.WorkerAfterStep | backend/app/rtsp_api.py:180-244 | a worker goes from reserved to opening to its loop to its end, by its own steps only |
| RtspLaws.FinalAnswer | backend/app/rtsp_api.py:225-244 | a finished session answers as failed with its error exactly if there was one, as complete otherwise, not running, with the greater frame count and everything else as it was |
| RtspLaws.ActiveAnswer | backend/app/rtsp_api.py:314-326 | a session with an entry answers as running with what the entry says |
| RtspLaws.RememberedAnswerStays | backend/app/rtsp_api.py:70-74 | what a finished session answers is changed by nobody but a start of its own; other steps leave it or push it out |
| RtspLaws.RememberedStatusesAreFinal | backend/app/rtsp_api.py:70-74 | at every moment at most 32 remembered statuses, all final, none of a session with a worker |
| RtspLaws.AnswersAreKeptIff | backend/app/rtsp_api.py:314-326 | a step makes a session that answers stop answering exactly if it is that session's own failed start, or another finalisation while it is the oldest of 32; no reader sees a gap in the move |
| RtspLaws.OldestIsPushedOut | backend/app/rtsp_api.py:70-74 | and the oldest of 32 does stop answering |
| RtspLaws.FinalStatusStays | backend/app/rtsp_api.py:70-74 | a finished session keeps answering with the same final status until started again or 32 more workers have finished |
| RtspLaws.StopSignalStays | backend/app/rtsp_api.py:303-309 | a stop signal stays set, whatever happens, for as long as the worker has its entry |
| RtspLaws.StoppingStaysInTheLoop | backend/app/rtsp_api.py:303-309 | a worker stopped in its loop shows as stopping, whatever happens, until it is over |
| RtspLaws.StoppingIsOverwritten | backend/app/rtsp_api.py:180-187 | a worker stopped at any point before its loop can go on to show as running, its signal still set |
| RtspLaws.StoppingStaysIff | backend/app/rtsp_api.py:298-311 | a stopped session shows as stopping in every continuation until its worker is over exactly if the worker was in its loop when stopped |

## Left out

- Aliasing of records: tracks, pose states, phone evidence, zone windows and registry entries are values in `seq` and `map` fields rather than shared objects, so two names for one record are not captured.
- Failing presence writes: the recorder's calls are modelled, not whether a database took them; the source logs and goes on.
- Floating point: arithmetic is over exact reals, so rounding to three decimals, float32 embeddings and datetime resolution are not captured. Lengths are compared by their squares, and a vector's norm is given with the vector.
- The order of set and dictionary iteration where it is arbitrary or has no effect (students in a pass, zones of a window, windows of a summary); zone rows are therefore a map by zone.
- The detector, the face embedder and the object detector, and the geometry of landmarks that yields a pose: their outputs are inputs of the model.
- `SignalExtractor` and `GazeSuppressor` (backend/engagement/signals.py, backend/proctor/suppression.py:231-260): per-track context that feeds counts or is not used for decisions, and would add only easy members.
- `window_status` and `live_engagement_view` (backend/engagement/vnei.py:223-290): tallies over one frame.
- `eval_proctor`, `fp_reduction` and the reports (backend/eval/harness.py:129-185): tallies over flags.
- The parts of a QR claim that only reject (session mode, class section, already present, rate limit): leaving them out only adds runs, and every law about all runs holds with them too. The decoding and matching of a selfie is the step that gives up.
- Reading the clock and updating a token or window are one step; a clock read earlier makes the recorded times earlier, not the order of updates.
- `close_open_qr_presence` and manual overrides (backend/app/store.py:515-566): rows other than those the recorder and the QR path write.
- The pose observations `ProctorEngine` keeps for the live view (backend/proctor/engine.py:101): the classification is what the monitor returns.
- The registry's source handle, the camera loop and the cleanup around it; camera frames appear as telemetry only.
- HTTP, authentication, settings, email, the consent and deletion endpoints, and the web application.
