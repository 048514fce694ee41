# TradingTimeCounter core in Dafny

This is a model of the two sequential cores of TradingTimeCounter, a desktop overlay that counts down trading intervals.

- **The countdown timer** (`CountdownTimer`).
  - It is a class holding the fixed total duration in seconds, the remaining seconds, the running and stop-request flags, whether the thread handle still holds an unjoined thread, and whether an observer is registered.
  - It also holds `events`, the log of the observer calls made (`Started`, `Update(n)`, `Completed`, `Stopped`).
  - The background thread is replaced by one step per elapsed second (`Tick`) and by the loop leaving without a tick (`LoopExit`). `RunUndisturbed` runs the loop to its end.
  - `TimerTrace` defines an observer automaton (`Replay`). The timer's invariant says that, as long as no notification has been dropped for want of an observer, the log is a trace that automaton accepts. Every method states how it keeps or loses that condition. The lemmas there turn that into the ordering rules an observer relies on.
  - `TimeFormat` renders the remaining time as `MM:SS` using C++ truncating division and remainder. It has a decoder and a round-trip proof.
- **The configuration manager** (`ConfigManager`).
  - The `AppConfig`, `DisplayConfig` and `Color` records, with their default member initialisers.
  - The range check `validateConfig`, and `getDefaultConfig`.
  - The two YAML conversions, over a document abstracted as a map from key paths to typed scalars (`YamlDoc`).
  - Loading and saving, with the file as a value (`FileState`).
  - A class whose invariant is that the stored configuration always passes validation.

Files:
- `wrappers.dfy`: `Option`.
- `time_format.dfy`: `formatTime`.
- `timer_trace.dfy`: the observer calls and their order.
- `countdown_timer.dfy`: `CountdownTimer`.
- `display_config.dfy`: `DisplayConfig`.
- `yaml_doc.dfy`: key-path documents.
- `config_manager.dfy`: `AppConfig`, validation, conversions, load and save, and `ConfigManager`.

## Model

| member | source | states |
|---|---|---|
| Timer.CountdownTimer.constructor | tradingTimeCounter/src/CountdownTimer.cpp:7-14 | total and remaining are minutes*60 (300 for the default 5 minutes); idle; no stop request; no thread; no observer; empty log; the invariant holds |
| Timer.CountdownTimer.Notify | tradingTimeCounter/src/CountdownTimer.cpp:105-107 | the `if (m_callback)` guard around each notification: with an observer the event is appended to the log; without one nothing is logged and the log is no longer complete |
| Timer.CountdownTimer.SetCallback | tradingTimeCounter/src/CountdownTimer.cpp:20-22 | only the observer registration changes; the invariant is kept |
| Timer.CountdownTimer.Start | tradingTimeCounter/src/CountdownTimer.cpp:24-39 | while running nothing changes and nothing is logged; from idle the stop request is cleared, the timer runs with an unjoined thread, remaining time is kept (so stop-then-start resumes) and exactly one `Started` is logged; the log stays complete unless that `Started` found no observer |
| Timer.CountdownTimer.Stop | tradingTimeCounter/src/CountdownTimer.cpp:41-59 | while idle nothing changes and nothing is logged; from running the stop is requested, the timer goes idle, the thread is joined, remaining time is kept and exactly one `Stopped` is logged; the log stays complete unless that `Stopped` found no observer |
| Timer.CountdownTimer.Reset | tradingTimeCounter/src/CountdownTimer.cpp:61-76 | remaining becomes the full duration; running afterwards equals running before; the log gains `Stopped` then `Started` when it was running, and nothing when idle; the log stays complete when idle or observed |
| Timer.CountdownTimer.Tick | tradingTimeCounter/src/CountdownTimer.cpp:93-117 | enabled only while running, with no stop request and time left; remaining drops by exactly one and `Update(new remaining)` is logged; on reaching zero the timer goes idle and `Completed` follows at once, with no `Stopped`; the log stays complete exactly when an observer is registered |
| Timer.CountdownTimer.LoopExit | tradingTimeCounter/src/CountdownTimer.cpp:93-123 | with nothing to count down the thread leaves its loop, and the timer goes idle with no notification |
| Timer.CountdownTimer.RunUndisturbed | tradingTimeCounter/src/CountdownTimer.cpp:90-124 | with no stop request arriving, the loop ends idle, at zero for a start value r > 0 and still at r when r <= 0; the log gains exactly `Update(r-1)`, …, `Update(0)`, `Completed` for a start value r > 0, and nothing when r <= 0; the log stays complete when an observer is registered or nothing was sent |
| Timer.CountdownTimer.RemainingSeconds | tradingTimeCounter/src/CountdownTimer.cpp:78-80 | for a non-negative duration the remaining time stays within [0, total] |
| Timer.CountdownTimer.IsRunning | tradingTimeCounter/src/CountdownTimer.cpp:82-84 | a running timer has no pending stop request and a live thread |
| Timer.CountdownTimer.FormattedTime | tradingTimeCounter/src/CountdownTimer.cpp:86-88 | the rendering decodes back to the current remaining seconds |
| Timer.ObservedCycle | tradingTimeCounter/src/CountdownTimer.cpp:20-124 | a timer given an observer, started and left to run, ends idle with a complete log of exactly `Started`, `Update(total-1)`, …, `Update(0)`, `Completed` (just `Started` for a duration that is zero or less) |
| Timer.LogObeysContract | tradingTimeCounter/include/tradingTimeCounter/ITimerCallback.h:15-34 | in the log of a valid timer that has dropped no notification: updates lie in [0, total); `Completed` comes right after `Update(0)`, and `Update(0)` is followed by `Completed` whenever anything follows it; consecutive updates count down by one; every update, `Stopped` and `Completed` lies inside a cycle a `Started` opened, and no `Started` comes inside an open cycle; for a positive duration, each `Started` is closed by exactly one `Stopped` or `Completed`, except the open cycle of a running timer (with a duration of zero or less the loop leaves silently, so the cycle stays open) |
| TimerTrace.ReplayPrefix | tradingTimeCounter/include/tradingTimeCounter/ITimerCallback.h:15-34 | every prefix of an accepted log is accepted |
| TimerTrace.UpdatesCountDown | tradingTimeCounter/src/CountdownTimer.cpp:99-107 | two consecutive updates in an accepted log differ by exactly one |
| TimerTrace.UpdateInRange | tradingTimeCounter/src/CountdownTimer.cpp:99-107 | every update in an accepted log lies in [0, total) |
| TimerTrace.CompletedFollowsZero | tradingTimeCounter/src/CountdownTimer.cpp:109-116 | the call after `Update(0)` is `Completed` |
| TimerTrace.CompletedOnlyAfterZero | tradingTimeCounter/src/CountdownTimer.cpp:109-116 | `Completed` is never the first call, and it always comes straight after `Update(0)` |
| TimerTrace.RunningIffLastStarted | tradingTimeCounter/src/CountdownTimer.cpp:24-59 | the observer sees a running timer exactly when the last lifecycle call was `Started` |
| TimerTrace.UpdateInsideCycle | tradingTimeCounter/src/CountdownTimer.cpp:99-107 | before every update, the last lifecycle call was `Started` |
| TimerTrace.LifecycleAlternates | tradingTimeCounter/src/CountdownTimer.cpp:24-59 | in an accepted log, `Started` never comes while the last lifecycle call was `Started`, and `Stopped` and `Completed` only come while it was |
| TimerTrace.StartedBalance | tradingTimeCounter/src/CountdownTimer.cpp:24-59 | #Started = #Stopped + #Completed, plus one while a cycle is open |
| TimerTrace.TickAccepted | tradingTimeCounter/src/CountdownTimer.cpp:99-116 | from a running observer state whose last update was r+1, `Update(r)` is accepted and becomes the state; at r = 0 the following `Completed` leaves the observer idle |
| TimerTrace.CountdownEntries | tradingTimeCounter/src/CountdownTimer.cpp:93-107 | a countdown from r to t has r-t entries, and entry k is `Update(r-1-k)` |
| TimerTrace.CountdownAccepted | tradingTimeCounter/src/CountdownTimer.cpp:93-107 | `Started` followed by a countdown from the total is accepted, with the last update as the observer's state |
| TimerTrace.FullCycleAccepted | tradingTimeCounter/src/CountdownTimer.cpp:90-124 | a whole cycle (`Started`, every update down to 0, `Completed`) is accepted and leaves the observer idle |
| TimeFormat.FormatTime | tradingTimeCounter/src/CountdownTimer.cpp:126-135 | the rendering, with C++ truncating `/` and `%`, always holds the colon; its layout and its decoding are FormatTimeLayout and FormatTimeRoundTrip |
| TimeFormat.FormatTimeLayout | tradingTimeCounter/src/CountdownTimer.cpp:126-135 | for s >= 0, the rendering is s/60 zero-padded to at least two digits, a colon, then s%60 as exactly two digits |
| TimeFormat.FormatTimeRoundTrip | tradingTimeCounter/src/CountdownTimer.cpp:126-135 | for s >= 0, splitting at the colon and reading mm*60+ss gives back s |
| TimeFormat.FormatTimeInjective | tradingTimeCounter/src/CountdownTimer.cpp:126-135 | distinct non-negative counts render differently |
| TimeFormat.PadZeroValue | tradingTimeCounter/src/CountdownTimer.cpp:131-132 | zero padding keeps the value of a digit string |
| TimeFormat.NatToDecimalValue | tradingTimeCounter/src/CountdownTimer.cpp:131-132 | the decimal rendering of n reads back as n |
| Config.FirstViolation | tradingTimeCounter/src/ConfigManager.cpp:250-290 | the check that rejects: that range fails and every check made before it in validateConfig passes; none is reported exactly when every range holds |
| Config.ValidateConfig | tradingTimeCounter/src/ConfigManager.cpp:250-290 | true exactly when: duration is in [1,60]; font size is in [8,72]; every text and background channel is in [0,255]; opacity is in [0,255]; and the window is at least 50x20 |
| Config.GetDefaultConfig | tradingTimeCounter/src/ConfigManager.cpp:147-160 | equals a default-constructed `AppConfig` field for field, and passes validation |
| Config.DefaultsAreInRange | tradingTimeCounter/include/tradingTimeCounter/IDisplayManager.h:13-32 | a default `Color` is white; the defaults are white text and a black background, font 24, window 120x50, opacity 200, draggable and unlocked; all lie in the validator's ranges |
| YamlDoc.Child | tradingTimeCounter/src/ConfigManager.cpp:74-76 | the sub-document under a key holds exactly the paths below that key, with their values |
| YamlDoc.Graft | tradingTimeCounter/src/ConfigManager.cpp:116-117 | nesting a sub-document under a key adds exactly its paths below that key and keeps every other entry |
| YamlDoc.ChildOfGraft | tradingTimeCounter/src/ConfigManager.cpp:116-117 | the section written under a fresh key reads back unchanged |
| YamlDoc.ReadInt | tradingTimeCounter/src/ConfigManager.cpp:57-59 | a key with a map below it, or with a scalar on the way to it, fails; otherwise an absent key keeps the current value, an integer is taken, and any other kind fails, as `as<int>()` throws |
| YamlDoc.ReadBool | tradingTimeCounter/src/ConfigManager.cpp:61-63 | the same for a boolean key (`as<bool>()`) |
| YamlDoc.ReadString | tradingTimeCounter/src/ConfigManager.cpp:69-71 | the same for a string key (`as<std::string>()`) |
| Config.ReadFont | tradingTimeCounter/src/ConfigManager.cpp:175-180 | succeeds exactly when each font key is readable (no map below it, no scalar above it) and has its setting's kind when present; reads each from its key or falls back to its default |
| Config.ReadColor | tradingTimeCounter/src/ConfigManager.cpp:183-197 | the same for the three channels of one colour |
| Config.ReadWindow | tradingTimeCounter/src/ConfigManager.cpp:200-205 | the same for the window keys |
| Config.ReadPosition | tradingTimeCounter/src/ConfigManager.cpp:208-214 | the same for the position keys |
| Config.YamlToDisplayConfig | tradingTimeCounter/src/ConfigManager.cpp:171-217 | succeeds exactly when every setting key is readable and, when present, has its setting's kind; each setting is then the value at its key, or the `DisplayConfig{}` default when absent |
| Config.DisplayConfigToYaml | tradingTimeCounter/src/ConfigManager.cpp:219-248 | writes exactly the sixteen key paths that yamlToDisplayConfig reads |
| Config.DisplayYamlReads | tradingTimeCounter/src/ConfigManager.cpp:219-248 | the written document is well-kinded, and every key holds its setting of d |
| Config.DisplayYamlRoundTrip | tradingTimeCounter/src/ConfigManager.cpp:171-248 | yamlToDisplayConfig(displayConfigToYaml(d)) == d |
| Config.ReadsAsUnique | tradingTimeCounter/src/ConfigManager.cpp:171-217 | a document describes at most one display configuration |
| Config.ReadsConfigUnique | tradingTimeCounter/src/ConfigManager.cpp:54-76 | a document describes at most one `AppConfig` |
| Config.ShapedIsReadable | tradingTimeCounter/src/ConfigManager.cpp:219-248 | in a section whose keys are all two levels deep, or three under `colors`, every such key can be read |
| Config.WrittenKeyReadable | tradingTimeCounter/src/ConfigManager.cpp:219-248 | every key displayConfigToYaml writes can be read back without a throw |
| Config.MapAtSettingFails | tradingTimeCounter/src/ConfigManager.cpp:175-178 | any display section in which `font.size` is a map makes the conversion fail, whatever else the section holds |
| Config.EmptyDisplaySectionGivesDefaults | tradingTimeCounter/src/ConfigManager.cpp:171-217 | an empty section converts to `DisplayConfig{}` |
| Config.ReadTimerSettings | tradingTimeCounter/src/ConfigManager.cpp:54-71 | succeeds exactly when each top-level key is readable and, when present, has its setting's kind; reads each from its key or falls back to the `AppConfig` default |
| Config.DisplaySettings | tradingTimeCounter/src/ConfigManager.cpp:73-76 | the display part succeeds exactly when the display section is well-kinded (so `display` itself being a scalar fails), and describes that section; an absent section gives the defaults |
| Config.LoadConfigFromFile | tradingTimeCounter/src/ConfigManager.cpp:45-94 | a loaded configuration always comes from a present document and passes validation |
| Config.LoadReadsDocument | tradingTimeCounter/src/ConfigManager.cpp:54-76 | a loaded configuration is the one the document describes: present keys give their values, absent keys leave the defaults |
| Config.LoadRejectsWrongKinds | tradingTimeCounter/src/ConfigManager.cpp:87-93 | a value of the wrong kind, a map where a setting is expected or a scalar where a section is expected makes loading fail |
| Config.LoadFailsOnlyWhenInvalid | tradingTimeCounter/src/ConfigManager.cpp:78-85 | on a document whose top level and display section are well-kinded, loading gives the described configuration when it is valid, and nothing otherwise |
| Config.EmptyDocumentGivesDefaults | tradingTimeCounter/src/ConfigManager.cpp:54-76 | a document with no keys loads as the default configuration |
| Config.ScalarDisplaySectionFails | tradingTimeCounter/src/ConfigManager.cpp:73-93 | any file whose `display` entry is a scalar fails to load, whatever else the file holds |
| Config.TopLevelYaml | tradingTimeCounter/src/ConfigManager.cpp:106-113 | writes exactly the four top-level keys with their values, and no display section |
| Config.AppConfigToYaml | tradingTimeCounter/src/ConfigManager.cpp:103-119 | the emitted document holds the four top-level keys with their values, and its `display` section is exactly displayConfigToYaml of the display settings |
| Config.SavedDocumentReadsAs | tradingTimeCounter/src/ConfigManager.cpp:103-119 | the saved document is well-kinded and describes the configuration saved |
| Config.SaveLoadRoundTrip | tradingTimeCounter/src/ConfigManager.cpp:45-145 | a valid configuration that was saved loads back unchanged |
| Config.ConfigManager.constructor | tradingTimeCounter/src/ConfigManager.cpp:8-20 | the stored configuration is the loaded one when loading succeeds and the defaults otherwise; in both cases it is valid |
| Config.ConfigManager.GetConfig | tradingTimeCounter/src/ConfigManager.cpp:22-24 | the configuration returned passes validation |
| Config.ConfigManager.ConfigFileExists | tradingTimeCounter/src/ConfigManager.cpp:162-165 | true exactly when the file is present, parseable or not; when it is false, loading fails |
| Config.ConfigManager.GetConfigFilePath | tradingTimeCounter/src/ConfigManager.cpp:167-169 | returns the path the manager was constructed with; as a bare accessor of a const field, what it promises is carried by the constructor's ensures |
| Config.ConfigManager.SaveConfigToFile | tradingTimeCounter/src/ConfigManager.cpp:96-145 | fails for an invalid configuration, before any write; otherwise it succeeds exactly when the file opens for writing, and the file then holds a document that loads back as the configuration |
| Config.ConfigManager.SaveConfig | tradingTimeCounter/src/ConfigManager.cpp:26-28 | saves the current configuration, which is unchanged and still valid |
| Config.ConfigManager.UpdateConfig | tradingTimeCounter/src/ConfigManager.cpp:30-43 | an invalid configuration gives false and changes nothing; a valid one becomes current; without saving the result is true; with saving (the default) it is the save's result, and the file then loads back as that configuration |

## Inputs and abstractions

- **Threads as steps.** The background thread and its clock are not modelled. The caller picks the next step: `Tick` for one elapsed second, `LoopExit` when there was nothing to count, or `Stop`. So `stop` always takes effect between two ticks.
- **Observer.** `setCallback` takes whether an observer is given. A notification with no observer is dropped.
  - The ghost flag `logComplete` records that no notification has been dropped.
  - The ordering invariant is claimed only while the flag holds.
- **Files.** A file is `Missing`, `Unparsable` or `Present(doc)`. A failure to open the file for writing is the `writable` parameter.
- **YAML documents.**
  - A document is a map from key paths (`["colors", "text", "r"]`) to integer, boolean or string scalars.
  - A node is a map when some path lies strictly below it, and a scalar when its own path is present. A section that is a scalar is the one-key path `["display"]`.
  - Reading a setting throws when a scalar lies on the way to it, when it is a map, or when its value has the wrong kind. The loader catches the throw and returns "no configuration".

## Left out

- Threads, atomics, `steady_clock`, the 10 ms sleep and the millisecond bookkeeping of the loop: they are timing, not logic. The races between `setCallback` and the thread are left out too.
- The destructor (CountdownTimer.cpp:16-18): there is no deallocation in the model. It calls `stop`, which returns at once for a timer that completed on its own (:42-44). The still-joinable `std::thread` is then destroyed, which ends the process, and `App::shutdown` (App.cpp:160) reaches exactly that path. The cause is the same as for the Start precondition below.
- Timer.CountdownTimer.Start: requires that no unjoined thread is left over. After a natural completion `stop` returns early, so the finished thread is never joined, and a later `start` would assign over a joinable `std::thread`; that would end the process. Restart after completion is therefore outside the model rather than proved safe.
- Timer.CountdownTimer.constructor: requires `minutes*60` to fit in 32 bits. Signed overflow there is undefined behaviour in C++, so it is not modelled.
- `calculateInitialRemainingTime` (the alignment to 5-minute boundaries) is declared in CountdownTimer.h but never defined or called. The constructor and `reset` use the full duration, and so does the model.
- TimeFormat.FormatTime: its own contract states only that the colon is there; the full layout and the decoding are stated by FormatTimeLayout and FormatTimeRoundTrip.
- TimeFormat.FormatTimeRoundTrip: holds only for s >= 0. Negative inputs are still rendered with truncating division and remainder (−65 gives "-1:-5"), but they do not decode.
- YAML parsing and emitting, `std::filesystem`, directory creation, exception types and console logging: these are I/O. The comment line the emitter writes is also not modelled, because it carries no setting.
- FileState: a path that exists but is not a regular file is folded into `Missing`. `configFileExists` treats the two cases the same.
- Scalar kinds in YAML: yaml-cpp stores every scalar as text, so `as<std::string>()` accepts numbers and booleans as well, `as<bool>()` accepts spellings such as `yes`/`on`, and `as<int>()` rejects values outside `int`. The model has three disjoint kinds and no integer width. A YAML null (`key: ~`), YAML sequences and empty maps (`size: {}`) are not represented. An empty map has no key path below it, so the model reads it as absent and keeps the default, where yaml-cpp finds a defined node and `as<T>()` throws. In the source, a sequence in place of a section reads as empty, because a const `operator[]` with a string key gives an undefined node. A sequence in place of a setting makes `as<T>()` throw.
- The windowing, the message loops, the command line and main.cpp, App and the overlays: they are not part of this model.
