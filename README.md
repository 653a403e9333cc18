# Subway line sections

This project models the domain core of a subway-line service: a **distance** between two
neighbouring stations and a **line** that owns a list of **sections**. A section is an upstream
station, a downstream station and the distance between them. The behaviour is the one that the
suites `LineTest` and `DistanceTest` pin down: the model does what their assertions require, and
"## Left out" lists the choices it makes where the tests leave the behaviour open.

- `Distances` holds `Distance`, a strictly positive integer compared by value. It has the
  constructor check, `plus`, `minus` and `validateLargerThan`. Each returns a `Result` or an
  `Outcome` instead of throwing.
- `Errors` holds the error tags: `InvalidArgument`, `CannotUpdateSection(failure)` and
  `CannotDelete(failure)`. The failure tells apart the distinct messages of the source.
- `Stations` models the up-to-down order of a line's stations (its *path*). It defines how
  adding and removing a station changes that path.
- `Sections` states `addLineSection` and `removeLineSection` as functions on the section list:
  - `AddSection` covers the refusals, the split of the leg after a registered `up` or before a
    registered `down`, and the extension at a terminus.
  - `RemoveSection` covers dropping a terminus section and merging the two sections around an
    interior station.
  - `StationsOf` states `getStations` as a walk from the upstream terminus.
- `Chains` defines the line invariant `Chain(sections, path)`. There is at least one section.
  The path has one more station than there are sections, and no station repeats in it. The
  sections are exactly the legs of the path, in some list order.
- `SectionProperties` proves what the operations promise on every line:
  - both operations keep the invariant;
  - each error is returned exactly when its condition holds;
  - the total distance is kept by a split and by a merge, and changes by the section's distance
    at a terminus;
  - the walk lists the path;
  - removing a station that was just added gives back the stations and the total distance; after
    an extension it gives back the very section list, and after a split it gives back the split
    section, moved to the end of the list.
- `Lines.Line` is the mutable line. It has a `seq<Section>` field that `AddLineSection` and
  `RemoveLineSection` reassign, and a ghost `Path`. `GetStations` walks the sections in a loop.
  Each method is proved against the functions above.
- `LineTests` and `DistanceTests` restate the JUnit scenarios with their concrete stations and
  distances. Each one's `ensures` is what the test asserts.

## Model

| member | source | states |
|---|---|---|
| Distances.New | src/test/java/nextstep/subway/line/DistanceTest.java:16-26 | A distance can be built exactly when the value is greater than 0; it then holds that value, and otherwise the error is InvalidArgument |
| Distances.Plus | src/test/java/nextstep/subway/line/DistanceTest.java:42-48 | `plus(n)` gives the distance whose value is the old value plus `n`, and is refused exactly when that sum is not positive |
| Distances.Minus | src/test/java/nextstep/subway/line/DistanceTest.java:31-37 | `minus(n)` gives the distance whose value is the old value minus `n`, and is refused exactly when nothing positive remains |
| Distances.ValidateLargerThan | src/test/java/nextstep/subway/line/DistanceTest.java:53-57 | The check passes exactly when `n` is strictly less than the distance; otherwise it fails with CannotUpdateSection (distance not shorter) |
| Distances.MinusThenPlus | src/test/java/nextstep/subway/line/DistanceTest.java:31-48 | Subtracting `n` and then adding `n` back gives the distance one started from |
| Distances.ValidatedSplitLeavesRemainder | src/test/java/nextstep/subway/line/LineTest.java:86-91 | The split check passes exactly when `minus` leaves a positive remainder, and that remainder plus the new leg is the old distance |
| DistanceTests.GreaterThanZero | src/test/java/nextstep/subway/line/DistanceTest.java:22-27 | A distance of 0 is refused with InvalidArgument |
| DistanceTests.MinusTwice | src/test/java/nextstep/subway/line/DistanceTest.java:31-38 | 10 minus 3 minus 2 equals the distance 5 |
| DistanceTests.PlusTwice | src/test/java/nextstep/subway/line/DistanceTest.java:42-49 | 10 plus 3 plus 2 equals the distance 15 |
| DistanceTests.ValidateLargerThanTwelve | src/test/java/nextstep/subway/line/DistanceTest.java:53-58 | On the distance 10, a new leg of 12 fails with CannotUpdateSection |
| DistanceTests.SameValueSameDistance | src/test/java/nextstep/subway/line/DistanceTest.java:37-48 | Two distances are equal exactly when their values are equal |
| Stations.RemoveUndoesAdd | src/test/java/nextstep/subway/line/LineTest.java:112-150 | Taking out the station that a new leg brought onto the line gives back the previous station order |
| Sections.IndexOfUp | src/test/java/nextstep/subway/line/LineTest.java:49-57 | Finds the first section leaving a station, or reports -1 exactly when no section leaves it |
| Sections.IndexOfDown | src/test/java/nextstep/subway/line/LineTest.java:60-83 | Finds the first section arriving at a station, or reports -1 exactly when no section arrives there |
| Sections.Registered | src/test/java/nextstep/subway/line/LineTest.java:94-108 | A station is on the line exactly when some section starts or ends there |
| Sections.AddSection | src/test/java/nextstep/subway/line/LineTest.java:49-84 | An accepted add appends the new section, with its stations and distance, after the old ones, and changes no other section than the one it splits |
| Sections.RemoveSection | src/test/java/nextstep/subway/line/LineTest.java:110-150 | An accepted remove needs at least two sections |
| Sections.Merged | src/test/java/nextstep/subway/line/LineTest.java:110-122 | The section replacing the two around an interior station runs from the first one's upstation to the second one's downstation over the sum of their distances |
| Sections.UpTerminusFrom | src/test/java/nextstep/subway/line/LineTest.java:39-44 | The search for the upstream terminus returns a section whose upstation no section arrives at, or -1 |
| Sections.WalkFrom | src/test/java/nextstep/subway/line/LineTest.java:39-44 | The walk starts at the given station and meets at most one station more than its bound of steps |
| Sections.WalkFollows | src/test/java/nextstep/subway/line/LineTest.java:39-44 | Each next station of the walk is where the first section leaving the previous one arrives, and a walk that stops before its bound stops at a station no section leaves |
| Sections.StationsOf | src/test/java/nextstep/subway/line/LineTest.java:39-44 | `getStations` lists at most one more station than there are sections and starts at a station no section arrives at; it is empty exactly when every section's upstation is also arrived at |
| Sections.UpTerminusFound | src/test/java/nextstep/subway/line/LineTest.java:39-44 | The search for the upstream terminus succeeds whenever some section starts where no section arrives |
| SectionProperties.SplitTarget | src/test/java/nextstep/subway/line/LineTest.java:49-57 | On a line, the section that starts at `up` or ends at `down` is the one that `addLineSection` splits; there is only one |
| SectionProperties.AddSectionOutcome | src/test/java/nextstep/subway/line/LineTest.java:86-108 | Both stations on the line, neither on the line, a non-positive distance, a split leg that is not longer, and acceptance: each result happens exactly when its condition holds |
| SectionProperties.AddSectionShape | src/test/java/nextstep/subway/line/LineTest.java:49-84 | An accepted add either splits the leg after `up` in place (it now starts at `down` and is shorter by the new distance), or splits the leg before `down` in the same way, or leaves the list as it was; in all three cases the new section is appended |
| SectionProperties.SplitAfter | src/test/java/nextstep/subway/line/LineTest.java:49-57 | Splitting the leg after a registered `up` keeps the line a chain with `down` right after `up`, and keeps the total distance |
| SectionProperties.SplitBefore | src/test/java/nextstep/subway/line/LineTest.java:49-57 | Splitting the leg before a registered `down` keeps the line a chain with `up` right before `down`, and keeps the total distance |
| SectionProperties.Extend | src/test/java/nextstep/subway/line/LineTest.java:60-84 | Appending a section at either terminus keeps the line a chain whose path gains the new station at that end |
| SectionProperties.AddKeepsChain | src/test/java/nextstep/subway/line/LineTest.java:49-84 | An accepted add keeps the line a single path, with the new station placed next to the registered one |
| SectionProperties.AddSectionTotal | src/test/java/nextstep/subway/line/LineTest.java:49-84 | An accepted add keeps the total distance when it splits a leg, and adds the new distance when it extends a terminus |
| SectionProperties.AddTotalShape | src/test/java/nextstep/subway/line/LineTest.java:49-57 | Whatever the line, a split keeps the total distance and an add without a split adds the new distance |
| SectionProperties.RemoveSectionOutcome | src/test/java/nextstep/subway/line/LineTest.java:152-168 | A station not on the line is refused as unknown, a station of a one-section line is refused as the last section, and the remove is accepted exactly otherwise |
| SectionProperties.RemoveSectionShape | src/test/java/nextstep/subway/line/LineTest.java:110-150 | An accepted remove drops the one section of a terminus, or drops the two sections around an interior station and appends the section joining their outer stations over the sum of their distances |
| SectionProperties.DropUpTerminus | src/test/java/nextstep/subway/line/LineTest.java:124-136 | Removing the upstream terminus drops its section; the line stays a chain on the rest of the path and is shorter by that distance |
| SectionProperties.DropDownTerminus | src/test/java/nextstep/subway/line/LineTest.java:138-150 | Removing the downstream terminus drops its section; the line stays a chain and is shorter by that distance |
| SectionProperties.MergeAt | src/test/java/nextstep/subway/line/LineTest.java:110-122 | Merging the sections around an interior station keeps the line a chain on the path without that station |
| SectionProperties.MergeKeepsTotal | src/test/java/nextstep/subway/line/LineTest.java:117-121 | Merging two sections into one keeps the total distance |
| SectionProperties.RemoveKeepsChain | src/test/java/nextstep/subway/line/LineTest.java:110-150 | An accepted remove keeps the line a single path, namely the old path without the station |
| SectionProperties.RemoveSectionTotal | src/test/java/nextstep/subway/line/LineTest.java:110-150 | Removing an interior station keeps the total distance; removing a terminus shortens it by that terminus's section |
| SectionProperties.ChainFollows | src/test/java/nextstep/subway/line/LineTest.java:39-44 | On a line, the first section leaving each station but the last leads to the next station |
| SectionProperties.WalkAlong | src/test/java/nextstep/subway/line/LineTest.java:39-44 | Walking from a station of the path meets the rest of the path in order |
| SectionProperties.StepAlong | src/test/java/nextstep/subway/line/LineTest.java:39-44 | A section leaves every station of the line except the downstream terminus, and it leads to the next station |
| SectionProperties.UpTerminusOfChain | src/test/java/nextstep/subway/line/LineTest.java:39-44 | The walk starts at the upstream terminus |
| SectionProperties.StationsOfChain | src/test/java/nextstep/subway/line/LineTest.java:39-44 | `getStations` lists exactly the line's stations from the upstream to the downstream terminus, one more than there are sections |
| SectionProperties.NewStationAdded | src/test/java/nextstep/subway/line/LineTest.java:49-84 | The station an add brings onto the line is on the new path |
| SectionProperties.UndoAppend | src/test/java/nextstep/subway/line/LineTest.java:124-150 | Removing the station that only an appended section touches gives back the list before the append |
| SectionProperties.ExtendAppends | src/test/java/nextstep/subway/line/LineTest.java:60-84 | An add at a terminus appends exactly the new section, and its new station was not on the line |
| SectionProperties.NewStationInterior | src/test/java/nextstep/subway/line/LineTest.java:49-57 | The station a split brings onto the line is neither terminus of the new path |
| SectionProperties.UndoUpSplit | src/test/java/nextstep/subway/line/LineTest.java:49-57 | On any section list, splitting the section that leaves `up` and removing `down` again gives back that very section, moved to the end of the list, and every other section in its order |
| SectionProperties.UndoDownSplit | src/test/java/nextstep/subway/line/LineTest.java:49-57 | On any section list, splitting the section that arrives at `down` and removing `up` again gives back that very section, moved to the end of the list, and every other section in its order |
| SectionProperties.UndoSplit | src/test/java/nextstep/subway/line/LineTest.java:49-57 | On a line, a split followed by removing the new station is accepted, gives back the split section at the end of the list with the others in order, and keeps the total distance |
| SectionProperties.RemoveUndoesAddSection | src/test/java/nextstep/subway/line/LineTest.java:110-150 | Adding a station and then removing it is accepted and gives back the line's stations in order |
| SectionProperties.RemoveUndoesAddTotal | src/test/java/nextstep/subway/line/LineTest.java:110-150 | Adding a station and then removing it gives back the total distance, and after a terminus extension the section list itself |
| Lines.Line.constructor | src/test/java/nextstep/subway/line/LineTest.java:26-34 | A new line has its name, colour and one section from `up` to `down`, and its stations are `up`, `down` |
| Lines.Line.FindLeaving | src/test/java/nextstep/subway/line/LineTest.java:49-57 | The loop finds the first section leaving a station, or -1 exactly when there is none |
| Lines.Line.FindArriving | src/test/java/nextstep/subway/line/LineTest.java:60-84 | The loop finds the first section arriving at a station, or -1 exactly when there is none |
| Lines.Line.SectionsAfterAdding | src/test/java/nextstep/subway/line/LineTest.java:49-108 | The list `addLineSection` builds, or the error it throws, is the one that `AddSection` defines |
| Lines.Line.AddLineSection | src/test/java/nextstep/subway/line/LineTest.java:49-108 | The line stays valid; an accepted add leaves the sections `AddSection` gives and puts the new station next to the registered one; a refused add reports the error and leaves the sections and stations as they were |
| Lines.Line.SectionsAfterRemoving | src/test/java/nextstep/subway/line/LineTest.java:110-168 | The list `removeLineSection` builds, or the error it throws, is the one that `RemoveSection` defines |
| Lines.Line.RemoveLineSection | src/test/java/nextstep/subway/line/LineTest.java:110-168 | The line stays valid; an accepted remove leaves the sections `RemoveSection` gives and takes the station out of the path; a refused remove reports the error and leaves the line as it was |
| Lines.Line.FindUpTerminus | src/test/java/nextstep/subway/line/LineTest.java:39-44 | The search finds the section that leaves the upstream terminus |
| Lines.Line.GetStations | src/test/java/nextstep/subway/line/LineTest.java:39-44 | The loop returns the line's stations from the upstream to the downstream terminus, which is `StationsOf(sections)`, one more than there are sections |
| LineTests.NewSinbundang | src/test/java/nextstep/subway/line/LineTest.java:26-34 | The fixture line 신분당선 is valid, has the one section 강남역 → 광교역 over 10, and its stations are 강남역, 광교역 |
| LineTests.OrderStations | src/test/java/nextstep/subway/line/LineTest.java:37-45 | A new line 강남역 → 광교역 lists 강남역, 광교역 |
| LineTests.AddBetween | src/test/java/nextstep/subway/line/LineTest.java:47-58 | Adding 강남역 → 양재역 over 3 gives 강남역, 양재역, 광교역, and the first section has distance 7 |
| LineTests.AddUpTerminus | src/test/java/nextstep/subway/line/LineTest.java:60-71 | Adding 신사역 → 강남역 over 5 gives 신사역, 강남역, 광교역, and the second section has distance 5 |
| LineTests.AddDownTerminus | src/test/java/nextstep/subway/line/LineTest.java:73-84 | Adding 광교역 → 수원역 over 8 gives 강남역, 광교역, 수원역, and the second section has distance 8 |
| LineTests.AddTooLong | src/test/java/nextstep/subway/line/LineTest.java:86-92 | Splitting the leg of 10 with a leg of 10 fails with CannotUpdateSection (distance not shorter) |
| LineTests.AddBothRegistered | src/test/java/nextstep/subway/line/LineTest.java:94-100 | Adding 강남역 → 광교역 fails with CannotUpdateSection (both registered) |
| LineTests.AddNeitherRegistered | src/test/java/nextstep/subway/line/LineTest.java:102-108 | Adding 신사역 → 수원역 fails with CannotUpdateSection (neither registered) |
| LineTests.RemoveInterior | src/test/java/nextstep/subway/line/LineTest.java:110-122 | After 신사역 → 강남역 is added, removing 강남역 gives 신사역, 광교역 with one section of 15 |
| LineTests.RemoveUpTerminus | src/test/java/nextstep/subway/line/LineTest.java:124-136 | After 신사역 → 강남역 is added, removing 신사역 gives 강남역, 광교역 with the section of 10 first |
| LineTests.RemoveDownTerminus | src/test/java/nextstep/subway/line/LineTest.java:138-150 | After 광교역 → 수원역 is added, removing 수원역 gives 강남역, 광교역 with the section of 10 first |
| LineTests.RemoveFromOneSection | src/test/java/nextstep/subway/line/LineTest.java:152-159 | Removing 강남역 from the one-section line fails with CannotDelete (only one section) |
| LineTests.RemoveUnknown | src/test/java/nextstep/subway/line/LineTest.java:161-168 | Removing 신사역, which is not on the line, fails with CannotDelete (not on the line) |

## Left out

- The service layer (`LineService`): repositories, transactions, lookups by id and the check that a line name is unique. These are calls into persistence code and are not part of this model.
- `Line.update` (replacing the name and the colour) is not modelled. No test of the core reaches it.
- Stations are their names, compared by value. Persistence ids and entity identity are not modelled.
- Exception messages are not modelled. Each distinct message is an error tag (`Errors.UpdateFailure`, `Errors.DeleteFailure`).
- Where the tests leave the behaviour open, the model makes these choices:
  - When neither the leg after `up` nor the leg before `down` exists, `addLineSection` extends the line at a terminus.
  - When `down` is the registered station, the leg before it is split in place, like the up-side split.
  - A positive distance is checked after the registration checks and before the split check.
  - The section that replaces a merged pair goes to the end of the list.
- `Sections.RemoveSection`: the registration check comes before the one-section check. The test at `LineTest.java:161-168` removes an unknown station from a one-section line and expects the "not on the line" error, which fixes this order.
- `Lines.Line.AddLineSection` and `Lines.Line.RemoveLineSection` leave the line untouched when they refuse a request. The tests do not observe the line after a refusal, so this is a choice of the model.
- `Lines.Line.AddLineSection` and `Lines.Line.RemoveLineSection` keep the name and the colour through their `modifies` frame, which covers only the sections and the path. They have no `ensures` saying so.
- `Lines.Line.constructor` takes an already valid `Distance` (build it with `Distances.New`). It requires the two stations to differ, which a line of one section needs in order to be a path.
- `Distances.Plus` and `Distances.Minus` use unbounded integers. Java `int` overflow is not modelled.
