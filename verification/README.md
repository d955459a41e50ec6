# Proofs about the RandR planner and five Kodi components

The main part models `xbmc-xrandr.c` as a planner for an X server: it places outputs by their
relations, sizes the framebuffer, picks CRTCs (greedily, then by a backtracking search that
overwrites and rebuilds its own records), works out which CRTCs differ from the server, and runs a
disable / resize / enable transaction that rolls back on the first refusal. Outputs and CRTCs are
objects that the methods change in place. The server is an object whose requests for a CRTC may be
granted or refused at will; it accepts a screen size exactly if every CRTC that is on fits it
(screen and CRTC requests, section 7.1 of the RandR protocol specification).

| file | what it holds |
|---|---|
| `RandR`, `Records`, `Server` | values of the protocol, the program's records, the server |
| `Geometry` | the box a transformed mode occupies |
| `Placement`, `PinnedPlacement`, `PinnedCycles`, `SetPositions` | the relation graph and its loop of sweeps; the same with explicit positions, without and with cycles; the loop on the records |
| `ScreenSize` | the framebuffer |
| `CrtcSearch`, `SearchBound`, `PickCrtcs` | what a best assignment is, what the weights mean; the search on the records |
| `Sharing`, `Arranged` | what the choice means: which outputs share a CRTC, and when they are sure to agree |
| `Asked`, `Plan`, `Transaction`, `Shown`, `Configure` | what is asked for; loading, planning and marking; the transaction; what the server shows then; the whole run |
| `TextureSpec`, `TextureManager` | the large texture manager: all interleavings; the objects |
| `FileStacking` | `CFileItemList`: stacking |
| `FileItems`, `FileListIndex`, `ListArchive`, `FileList` | `CFileItemList`: items, the path index and the archive as values; the list with both |
| `StackTimes` | playing a stack of files as one |
| `CueSheet` | the cue sheet parser, its time format and its line reader |
| `PartyMode` | party mode's queue and history |

The objects are proved against functions on values, and what the program is for is proved about
those functions; `Configure.Configure` puts the planner together from end to end.

Where the code does not do what it says:

- `set_positions` reports "loop in relative position specifications" only if no output at all can be placed.
  A cycle beside one that can makes it run forever (`PinnedCycles.EndingFromPins`; for an input,
  `Placement.TwoCirclesNeverEnd`), and a cycle with an explicit position on it ends without a complaint, with
  relations that may contradict each other (`PinnedCycles.PairContradicts`).
- An output with a relation and a position of its own counts as placed before the first sweep, so the
  loop may end before everybody stands beside a target that stays. The relations hold at exit for all
  such positions exactly if every output has come just as far as its target, or round a cycle and back to
  there, which the order of the list, the relations and the flags decide (`PinnedCycles.HoldExactlyWhenAllMeet`;
  for acyclic relations, by levels, `PinnedPlacement.HoldExactlyWhenSuffices`). The relation that fails need not
  be one to an output with a position (`PinnedPlacement.PinFartherOffMisleads`).
- Outputs that are switched on together may share an idle CRTC although their modes or positions differ; the
  first in the list is shown (`Arranged.TwinsNotShown`). All are shown as asked for exactly if those that share
  agree (`Shown.ShownExactlyWhenAgree`), which a condition on what was asked ensures (`Arranged.CompatibleAgree`).
- Outputs that are told to use the same idle CRTC get it even if they cannot be clones
  (`Sharing.PickTogether`, `Sharing.SharersCloneExactly`).
- The search's weights 1000 and 1001 put lighting outputs before keeping CRTCs only up to 1000
  enabled outputs; from 1001 on an output may stay dark that could be lit (`SearchBound.BoundIsSharp`,
  `SearchBound.PickForChain`).
- A reflection asked for is lost for an output without a CRTC and without a rotation asked for
  (`Plan.ReflectionKept`; for an input, `Plan.ReflectionLost`).
- `StackFiles` removes the entries right behind the first part, not the other parts, so a skipped
  entry inside a stack is lost and a part stays behind (`FileStacking.NoteInsideIsLost`); nothing is lost
  exactly if no stack found on the way has one inside (`FileStacking.Listing.StackFiles`). Renaming the
  stack leaves its old path in an active path index (`FileListIndex.RenamingBreaksIndex`).
- With URL options ignored, the slow lookup of a path misses items whose own path has options; the
  fast one finds them (`FileListIndex.LookupsAgree`).
- Loading a stored list without items stops early: the flags, sort data and content stay unread
  (`FileLists.FileItemList.Load`), and items with a radio tag cannot be loaded at all.
- A cue sheet that starts a track while no file is named may leave the track before without an end, or
  with one (`CueSheet.UnnamedTracksNeedNotTile`, `CueSheet.UnnamedTrackEndsAnother`); exactly when is
  `CueSheet.TilesExactly`. A last line without a line end is not read from a tag (`CueReader.UnendedLineIsLost`).
- Party mode moves the current song to the top in the queue of the other kind of media; it never
  has to (`PartyMode.Manager.MovePlaying`). With fewer than 50 matching songs it gives up when each
  was picked once (`PartyMode.Manager.Process`).

## Model

| member | source | states |
|---|---|---|
| Geometry.BoundsAreLeast | xbmc-xrandr.c:466-490 | the box of a set of points is the least integer box around where they land |
| Geometry.BoundsUnique | xbmc-xrandr.c:466-490 | there is only one such box |
| Geometry.PathBounds | xbmc-xrandr.c:466-490 | the loop computes that box; a point without an image counts where it was |
| Geometry.TurnedFills | xbmc-xrandr.c:407-435 | the pixels of a mode, turned, fill exactly a rectangle of the width and height computed |
| Geometry.ImageSolves | xbmc-xrandr.c:437-463 | a point has the image that its nine coefficients give up to depth, unless the depth is 0 or a coordinate beyond 32767 |
| Geometry.IdentityBox | xbmc-xrandr.c:466-511 | the transform that does nothing gives the turned mode's own rectangle, however large |
| Geometry.FractionWithin | xbmc-xrandr.c:437-463 | a quotient of affine forms whose divisor is positive at the corners of a rectangle stays within its values at the corners |
| Geometry.BoxContainsImage | xbmc-xrandr.c:493-511 | for every transform, projective ones too, that keeps the corners in range and on one side, the box contains the image of every point of the rotated mode |
| Geometry.AffineBoxContainsImage | xbmc-xrandr.c:493-511 | for an affine transform it is enough that the corners have images |
| Placement.SweepProgress | xbmc-xrandr.c:1881-1945 | without a cycle, a sweep that leaves outputs waiting placed at least one more and noticed it |
| Placement.AcyclicTerminates | xbmc-xrandr.c:1881-1945 | acyclic relations are placed within as many sweeps as outputs were waiting |
| Placement.PlacedMeansHolds | xbmc-xrandr.c:1881-1945 | on normal exit every relation to an enabled output holds, everything related is placed and nothing else moved |
| Placement.ClosedSetHasCycle | xbmc-xrandr.c:1881-1945 | outputs that only lean on one another contain a cycle |
| Placement.CycleStaysUnplaced | xbmc-xrandr.c:1910-1917 | no sweep ever places an output on a cycle |
| Placement.AnchoredCycleNeverEnds | xbmc-xrandr.c:1883-1945 | with a cycle beside a relation to a placed output, no number of sweeps ends the loop |
| Placement.UnanchoredRun | xbmc-xrandr.c:1941-1943 | relations none of which has such an anchor are reported as a loop in the first sweep, and are cyclic |
| Placement.LoopEnding | xbmc-xrandr.c:1881-1945 | for every graph exactly one of four endings, each by an if-and-only-if: unknown name, placed, loop reported, never ending; a reported loop is a cycle |
| Placement.TwoCirclesNeverEnd | xbmc-xrandr.c:1881-1945 | a graph on which the loop never ends: two outputs in a circle, and a third tied to an unrelated one |
| Placement.PinnedTargetMisleads | xbmc-xrandr.c:1910-1939 | a graph with an explicit position on a related output whose relations do not hold at normal exit |
| PinnedPlacement.RunMakesSweeps | xbmc-xrandr.c:1881-1945 | with acyclic relations the loop exits after a number of sweeps that the list order, the relations and the flags fix |
| PinnedPlacement.MetHolds | xbmc-xrandr.c:1881-1945 | if no output settles later than that, every relation holds at exit, wherever the explicit positions are |
| PinnedPlacement.UnmetFails | xbmc-xrandr.c:1881-1945 | if one does, some choice of explicit positions leaves a relation violated |
| PinnedPlacement.HoldExactlyWhenSuffices | xbmc-xrandr.c:1881-1945 | for every graph without cycles and every set of outputs with positions of their own: relations hold at exit for all such positions exactly if the sweeps suffice |
| PinnedPlacement.UnpinnedSuffices | xbmc-xrandr.c:1881-1945 | without explicit positions the sweeps always suffice |
| PinnedPlacement.PinFartherOffMisleads | xbmc-xrandr.c:1881-1945 | a graph where the relation that fails has no output with an explicit position at either end |
| PinnedCycles.EndingFromPins | xbmc-xrandr.c:1881-1945 | for every graph and every choice of explicit positions exactly one of four endings, each by an if-and-only-if: unknown name; placed, if every cycle has an explicit position on it; loop reported, if nobody can be placed; never ending |
| PinnedCycles.EndsWithinCount | xbmc-xrandr.c:1881-1945 | as many sweeps as outputs are enough, explicit positions or not |
| PinnedCycles.RunEndsAfter | xbmc-xrandr.c:1881-1945 | a loop that ends normally does so after a number of sweeps that the pins determine, cycles or not |
| PinnedCycles.HoldsExactlyWhenMet | xbmc-xrandr.c:1881-1945 | a relation holds at the end for all explicit positions exactly if its output has come as far as its target, or round a cycle and back to the same place |
| PinnedCycles.HoldExactlyWhenAllMeet | xbmc-xrandr.c:1881-1945 | all relations hold at the end for all explicit positions exactly if each does so |
| PinnedCycles.PairAgrees | xbmc-xrandr.c:1881-1945 | two outputs beside each other, one with a position, whose relations mean the same: both hold |
| PinnedCycles.PairContradicts | xbmc-xrandr.c:1881-1945 | the same with relations that contradict each other: no complaint, and one fails |
| SetPositions.VisitOutput | xbmc-xrandr.c:1886-1940 | one visit changes the records as `Visit` changes the graph's spots |
| SetPositions.PlaceAll | xbmc-xrandr.c:1881-1945 | the loop on the records ends as the loop on the graph does, with its positions |
| SetPositions.NormaliseKeepingRelations | xbmc-xrandr.c:1947-1970 | the shift keeps every relation, makes every enabled coordinate non-negative, and reaches 0 unless the least one was 32768 or more |
| SetPositions.SetPositions | xbmc-xrandr.c:1874-1971 | both together on the records: every output ends where the loop on the graph leaves it, all shifted alike, so that no coordinate is negative; relations hold if explicit positions on related outputs agree with them or are undone; with as many sweeps as outputs it succeeds exactly if all names are known and every circle of relations has an explicit position on it |
| SetPositions.StandsApart | xbmc-xrandr.c:1922-1939 | where a relation holds, every pixel of the output is on the right side of every pixel of the other |
| SetPositions.StandsNext | xbmc-xrandr.c:1922-1939 | and the two touch, or coincide at a pixel if they are to be the same |
| SetPositions.BesideTurned | xbmc-xrandr.c:1924-1929 | right of a full HD output turned by a quarter is column 1080 |
| ScreenSize.FitOutputs | xbmc-xrandr.c:1979-2018 | an unset size grows to the least one that covers every enabled box and panning area; a set one warns exactly when an output does not fit |
| ScreenSize.SetScreenSize | xbmc-xrandr.c:1974-2033 | the same with the server's limits: when each error occurs, that the size is at least the minimum, least among those, and reaches as far as every panning area |
| ScreenSize.FitsInPixels | xbmc-xrandr.c:1979-2006 | without a transform an output fits exactly if the screen has all its pixels |
| ScreenSize.ImageFits | xbmc-xrandr.c:1979-2006 | under any transform in range, all that an output that fits shows lies within the screen |
| ScreenSize.LeastIsLeastFor | xbmc-xrandr.c:1979-2018 | the size on the records is the least that covers every enabled box and the panning areas read with the CRTCs |
| CrtcSearch.BestUnique | xbmc-xrandr.c:2066-2109 | the best completion of given earlier choices is unique, so that the final re-run rebuilds it and stale choices do not matter |
| CrtcSearch.BestExists | xbmc-xrandr.c:2049-2110 | unless an output lists an unknown CRTC, given earlier choices have a best completion |
| CrtcSearch.BestIsLexicographic | xbmc-xrandr.c:2089-2095 | up to 1000 enabled outputs, the best assignment lights the most outputs, and then keeps the most CRTCs |
| CrtcSearch.BestLightsAllIfPossible | xbmc-xrandr.c:2150-2154 | up to 1000 enabled outputs, the best assignment lights all exactly if some feasible one does |
| CrtcSearch.ScoreCounts | xbmc-xrandr.c:2089-2095 | the score is 1000 for each output lit and 1 for each CRTC kept |
| CrtcSearch.FeasibleCompletes | xbmc-xrandr.c:2049-2110 | completing no choices at all is being feasible as a whole |
| SearchBound.BoundIsSharp | xbmc-xrandr.c:2089-2095 | for every size from 1001 enabled outputs on, a set-up where the best assignment leaves one dark that a feasible one lights |
| SearchBound.BoundIsReached | xbmc-xrandr.c:2089-2095 | that set-up has a best assignment, and it leaves one dark |
| SearchBound.PickForChain | xbmc-xrandr.c:2115-2158 | records that pose it: the program complains of an output without a CRTC although a feasible assignment lights all |
| PickCrtcs.CheckCrtcForOutput | xbmc-xrandr.c:1792-1853 | true exactly if the CRTC is on the list, everybody on it can be cloned, and the plan or the server's state agrees |
| PickCrtcs.FindCrtcForOutput | xbmc-xrandr.c:1855-1871 | the first CRTC of the list that suits, none, or one the server does not have |
| PickCrtcs.PickCrtcsScore | xbmc-xrandr.c:2049-2110 | returns the highest score of all feasible completions, and leaves in the overwritten list the first completion in search order that reaches it; fails exactly if an output to be on lists an unknown CRTC |
| PickCrtcs.MatchSpareCrtcs | xbmc-xrandr.c:2120-2143 | the first pass gives each changed output the first CRTC of its list that suits it given the others, or stops at an output that is stuck, the later ones untouched, or at an unknown CRTC |
| PickCrtcs.TakenStops | xbmc-xrandr.c:2124-2131 | it does not get through if a changed output to be on comes with a CRTC that drives another output on the server |
| PickCrtcs.OwnDoesNotStop | xbmc-xrandr.c:2124-2131 | a CRTC that drives nobody, or this output alone, does not stop it |
| PickCrtcs.OwnGetThrough | xbmc-xrandr.c:2120-2143 | if all changed outputs to be on come with such CRTCs, it gets through and changes nothing |
| PickCrtcs.MatchedUpOnce | xbmc-xrandr.c:2120-2143 | what the first pass chooses is determined by the choices it starts from |
| PickCrtcs.OneEnding | xbmc-xrandr.c:2120-2143 | it cannot both get stuck and meet an unknown CRTC |
| PickCrtcs.FirstPass | xbmc-xrandr.c:2117-2143 | it gets stuck, or meets an unknown CRTC, exactly if the choices read say so |
| PickCrtcs.FlagSwapped | xbmc-xrandr.c:2151-2157 | stops at the first output to be on without a CRTC, if any; before it, exactly the outputs whose CRTC is not the current one get the CRTC flag, and no flag else changes |
| PickCrtcs.PickCrtcs | xbmc-xrandr.c:2115-2158 | every changed output to be on gets a CRTC; the search runs exactly if the first pass gets stuck, prefers to keep the CRTCs that pass left, and flags exactly what it swapped; its complaint, up to 1000 outputs, means that no feasible assignment lights all |
| Sharing.PickedIsListed | xbmc-xrandr.c:2115-2158 | every CRTC picked is on its output's list |
| Sharing.PickedSharers | xbmc-xrandr.c:2115-2158 | outputs share a CRTC only if one can clone to the other, or both came with it |
| Sharing.SharersCloneExactly | xbmc-xrandr.c:2115-2158 | only clones share exactly if the search had to run, or those that came with a common CRTC are clones |
| Sharing.TakenIsSearched | xbmc-xrandr.c:2124-2148 | an output told to use a CRTC that drives another one makes the program search, and then only clones share |
| Sharing.PickBesideAnother | xbmc-xrandr.c:2124-2148 | told to use the CRTC of an unchanged output that is no clone, an output never ends on the same CRTC |
| Sharing.PickTogether | xbmc-xrandr.c:2120-2131 | two outputs told to use the same idle CRTC, neither a clone of the other: both get it |
| Sharing.TwinsMatch | xbmc-xrandr.c:1824-1851 | two clones to be switched on with one idle CRTC on their lists both get it, whatever their modes |
| Arranged.CompatibleAgree | xbmc-xrandr.c:1291-1300 | if outputs that may come to share a CRTC are meant to look alike at the same place, those that share agree |
| Arranged.TwinsNotShown | xbmc-xrandr.c:1291-1300 | two such clones with different modes: when all requests are granted, one is not shown as asked |
| Plan.LoadCrtc | xbmc-xrandr.c:1073-1092 | which CRTC an output starts from, and when each error occurs |
| Plan.LoadMode | xbmc-xrandr.c:1094-1137 | which mode it starts from, and when the mode is unknown |
| Plan.LoadGeometry | xbmc-xrandr.c:1139-1186 | where position, rotation, reflection and transform come from |
| Plan.ReflectionKept | xbmc-xrandr.c:1152-1180 | a reflection asked for is kept exactly if a rotation was asked for, or a CRTC is chosen, or none was meant |
| Plan.ReflectionLost | xbmc-xrandr.c:1152-1180 | an output without a CRTC that is to be mirrored, with no rotation asked for, comes out upright |
| Plan.SetOutputInfo | xbmc-xrandr.c:1058-1188 | loading succeeds exactly if CRTC and mode are usable; CRTC (by number or identifier), mode, position, turn, reflection and transform are then those asked for or, where not asked, those of the server, field by field; an output nobody changes is as the server drives it |
| Plan.MineIsMine | xbmc-xrandr.c:1306-1316 | the outputs planned for a CRTC are those that are to be on and have chosen it |
| Plan.CrtcAddOutput | xbmc-xrandr.c:1288-1304 | a CRTC takes its plan from the first output it gets |
| Plan.SetCrtcs | xbmc-xrandr.c:1306-1316 | every CRTC is planned for exactly its outputs |
| Plan.MarkChangingCrtcs | xbmc-xrandr.c:1759-1787 | a CRTC is marked exactly for a changed output, old or new; fails exactly if an old one is unknown |
| Plan.SetPanning | xbmc-xrandr.c:1318-1334 | each CRTC gets the last new panning area of its outputs, and is marked for it |
| Plan.NewPanningMeans | xbmc-xrandr.c:1318-1334 | a CRTC gets a new panning area exactly if one was asked for one of its outputs, and then that of the last of them |
| Transaction.ClearCrtc | xbmc-xrandr.c:1602-1642 | a CRTC that is to be off or does not fit is turned off, and marked if it is to be on; one that is to be on and fits is left alone, without a request |
| Server.FittingIsOnScreen | xbmc-xrandr.c:1617-1632 | all that a CRTC found to fit shows of its mode lies within the screen, under any transform in range |
| Server.FitsUntransformed | xbmc-xrandr.c:1617-1632 | without a transform a CRTC fits exactly if its turned mode does |
| Transaction.ScreenApply | xbmc-xrandr.c:1524-1541 | with the CRTCs cleared the server accepts the size, and every CRTC still on lies within it |
| Transaction.CrtcApply | xbmc-xrandr.c:1463-1507 | a marked CRTC ends in its planned state; whatever happens it stays revertible |
| Transaction.Revert | xbmc-xrandr.c:1543-1561 | if nothing is refused, size, configurations and transforms end as they were read, the resize happened once with all CRTCs off, and no state between was unsafe |
| Transaction.Apply | xbmc-xrandr.c:1583-1660 | success leaves the plan in force; failure only after a refusal or for an unreported mode, and then the server is as read, the screen resized once on the way back with every CRTC off; no state on the way has a CRTC beyond the screen |
| Shown.UntouchedShowsPlan | xbmc-xrandr.c:1759-1787 | from a consistent server, a CRTC left unmarked already has its planned mode, position, rotation, transform and set of outputs |
| Shown.AppliedShowsPlan | xbmc-xrandr.c:1583-1660 | after success every CRTC shows its plan, touched or not |
| Shown.ShownIsDriven | xbmc-xrandr.c:1583-1660 | if the server shows the plan, each output to be on is in the output list of its CRTC and of no other |
| Shown.ShownAsFirst | xbmc-xrandr.c:1288-1304 | what a CRTC shows is what the first of its outputs is to be |
| Shown.ShownExactlyWhenAgree | xbmc-xrandr.c:1288-1304 | every output to be on is shown with its own mode, position, rotation and transform exactly if those that share a CRTC agree in these |
| Asked.LoadOutputs | xbmc-xrandr.c:1675-1757 | loading succeeds exactly if every output can be loaded, and leaves each as asked for and otherwise as the server has it |
| Asked.LoadsTakeTold | xbmc-xrandr.c:1094-1186 | modes, positions, turns and transforms asked for are loaded as they are |
| Arranged.AskedAsTold | xbmc-xrandr.c:1881-1971 | after placing, modes, turns and transforms are those asked for, and outputs with positions asked for and no relation are as far apart as asked |
| Configure.Configure | xbmc-xrandr.c:2880-2975 | the whole run. What was asked for is taken as it is: modes, turns and transforms, and the distances between outputs with positions of their own. The plan is what was asked for, and what the server had where nothing was: modes, rotations, transforms, positions as the placement leaves them, relations, the least screen size if none was set, and CRTCs as the picking of CRTCs promises, each on its output's list. On success the server shows it on every CRTC, new panning areas included, and for every output exactly if those that share a CRTC agree. Failure comes only after a refusal or for an unreported mode, and then the server is as read; no state on the way is unsafe if no output was reported too large and the server takes transforms or none changes. It stops at loading and at placing exactly if these cannot be done; when it gives up before its first request the server is untouched and the records show why |
| TextureSpec.StepConsistent | xbmc/GUILargeTextureManager.cpp:131-236 | every event by balanced clients keeps counts equal to outstanding requests, wanted images held, loading ones wanted, and job numbers distinct |
| TextureSpec.CountIsOutstanding | xbmc/GUILargeTextureManager.cpp:131-236 | after any run of events an image's count is the number of requests the events left outstanding, counted from the events alone, and it is held while that is positive |
| TextureSpec.RetiredForever | xbmc/GUILargeTextureManager.cpp:219-236 | a job out of the queue never comes back; its late completion changes nothing |
| TextureSpec.CancelRetires | xbmc/GUILargeTextureManager.cpp:182-193 | dropping the last request for a loading image retires its job |
| TextureSpec.RepeatChangesNothing | xbmc/GUILargeTextureManager.cpp:148-167 | asking again, other than for the first time, changes nothing |
| TextureSpec.StepKeepsTexture | xbmc/GUILargeTextureManager.cpp:95-236 | while an image is held, only its own job's completion gives it a texture, and once |
| TextureSpec.TextureIsOfItsJob | xbmc/GUILargeTextureManager.cpp:148-236 | after any run of events an image that is held was started by one request and held ever since, and is loading or has exactly the texture of the first completion of the job started then |
| TextureSpec.WantedGetsTexture | xbmc/GUILargeTextureManager.cpp:148-236 | a path wanted ever since its loading was started has the texture its job ended with |
| TextureSpec.UnusedStays | xbmc/GUILargeTextureManager.cpp:95-116 | an image nobody wants any more stays for two seconds, unless dropped or swept immediately |
| TextureManager.LargeTexture.DecrRef | xbmc/GUILargeTextureManager.cpp:95-108 | drops a reference it has, and deletes or dates the image at the last one |
| TextureManager.Manager.GetImage | xbmc/GUILargeTextureManager.cpp:148-167 | on queue and cache as `Get` on what is held; each path stays held once, in one of them |
| TextureManager.Manager.ReleaseImage | xbmc/GUILargeTextureManager.cpp:169-194 | as `Release`, cancelling exactly the job of an image that is loading and no longer wanted |
| TextureManager.Manager.OnJobComplete | xbmc/GUILargeTextureManager.cpp:219-236 | as `Complete`: the image moves from queue to cache, or nothing happens |
| TextureManager.Manager.CleanupUnusedImages | xbmc/GUILargeTextureManager.cpp:131-144 | as `Cleanup`: exactly the unused images whose time has come go, none that is wanted |
| FileStacking.GoesWithMeans | xbmc/FileItem.cpp:2740-2819 | an entry joins the stack exactly if it and every stackable entry between compare as parts |
| FileStacking.StackFromIsStack | xbmc/FileItem.cpp:2730-2827 | a stack has at least two entries that may be stacked, in order, and none between is missed |
| FileStacking.StackIsOfOneTitle | xbmc/FileItem.cpp:2756-2812 | of every stack found, all members are files, and under one expression and offset each later one matches with the first one's title, ignored part and extension and another volume |
| FileStacking.StackSearch | xbmc/FileItem.cpp:2732-2827 | what the search does next, from the match of the next file alone: stack, try again behind the ignored part, or go on to the next expression |
| FileStacking.NeighboursStack | xbmc/FileItem.cpp:2756-2787 | two neighbours that the first expression finds to be parts of one title are stacked |
| FileStacking.OneTitleOnly | xbmc/FileItem.cpp:2770-2812 | names that differ in the volume are stacked; not if title, extension or ignored part differ too |
| FileStacking.RarKeepsItsPath | xbmc/FileItem.cpp:2828-2838 | the parts of a RAR set keep the path of the first |
| FileStacking.FoldingKeepsSize | xbmc/FileItem.cpp:2782-2785 | folding conserves the total size |
| FileStacking.FoldingKeepsPaths | xbmc/FileItem.cpp:2828-2852 | taking every stack apart gives back the original entries in order |
| FileStacking.TidyIsContiguous | xbmc/FileItem.cpp:2745-2755 | without a skipped entry between stackable ones, a stack is a run |
| FileStacking.Listing.FindStack | xbmc/FileItem.cpp:2717-2827 | the loop over expressions and offsets ends and finds the stack of an entry, with its size |
| FileStacking.Listing.StackFiles | xbmc/FileItem.cpp:2680-2857 | every stack is folded and nothing else; if no stack found on the way has a skipped entry inside, the result is a folding of the original, and with readable, distinct paths the original can be read back exactly then |
| FileStacking.NoteInsideIsLost | xbmc/FileItem.cpp:2828-2852 | two parts with a note between them: the note is lost and the second part stays |
| FileListIndex.IndexAppend | xbmc/FileItem.cpp:1989-1995 | adding at the end keeps the map the index of the items, whatever the keys |
| FileListIndex.IndexInsert | xbmc/FileItem.cpp:2006-2022 | inserting keeps it exactly if the first item of that key stays the first |
| FileListIndex.IndexErase | xbmc/FileItem.cpp:2024-2055 | erasing keeps it exactly if no other item has that key |
| FileListIndex.IndexReorder | xbmc/FileItem.cpp:3388-3392 | with distinct keys the order of the items does not matter |
| FileListIndex.ScanIsFirst | xbmc/FileItem.cpp:2128-2172 | it is the first item with a key that is found |
| FileLists.FileItemList.SetFastLookup | xbmc/FileItem.cpp:1925-1941 | switching fast lookup on builds the index, off empties it |
| FileLists.FileItemList.SetIgnoreURLOptions | xbmc/FileItem.cpp:1914-1923 | the index is rebuilt for the new keys |
| FileLists.FileItemList.Add | xbmc/FileItem.cpp:1989-1995 | appends and keeps the index |
| FileLists.FileItemList.Append | xbmc/FileItem.cpp:2057-2063 | appends a list and keeps the index |
| FileLists.FileItemList.AddFront | xbmc/FileItem.cpp:2006-2022 | inserts, also counted from the end, and when exactly the index stays right |
| FileLists.FileItemList.Remove | xbmc/FileItem.cpp:2042-2055 | removes, and when exactly the index stays right |
| FileLists.FileItemList.Swap | xbmc/FileItem.cpp:3388-3392 | swaps; with distinct keys the index stays right |
| FileLists.FileItemList.ApplyAll | xbmc/FileItem.cpp:1914-2063 | after any sequence of adds, front inserts, removals, appends, swaps and switches that keeps the keys distinct, the index is right |
| FileLists.FileItemList.Get | xbmc/FileItem.cpp:2128-2172 | the fast lookup is a scan by key, the slow one a scan by the items' own paths; the key leaves the options out exactly if they are to be ignored |
| FileListIndex.LookupsAgree | xbmc/FileItem.cpp:2128-2172 | with distinct keys the two lookups agree on all paths exactly if every item's path is its own key |
| FileListIndex.RenamingBreaksIndex | xbmc/FileItem.cpp:2840 | an item of an indexed list that gets a new path in place leaves the index wrong: the old path is found, the new one is not |
| ListArchive.LoadTags | xbmc/FileItem.cpp:604-619 | tags are loaded over those present; a stored radio tag needs one present |
| ListArchive.ParentAndRest | xbmc/FileItem.cpp:2280-2340 | a list is its leading parent, if it has one, and what is stored |
| FileLists.FileItemList.Store | xbmc/FileItem.cpp:2277-2318 | what is written, without a leading parent item |
| FileLists.FileItemList.Load | xbmc/FileItem.cpp:2319-2395 | everything stored comes back and exactly that is consumed, behind the list's own leading parent, and the path index is right again; a list without items is left empty with the rest unread; fails exactly on a radio tag it has no place for |
| FileLists.FileItemList.CopyThroughArchive | xbmc/FileItem.cpp:2274-2396 | the round trip brings a list over exactly if it has an item other than the parent, or nothing else to keep |
| StackTimes.EndsAreLasting | xbmc/ApplicationStackHelper.cpp:151-175 | positive durations give strictly increasing ends below 64 bits |
| StackTimes.EndsAddUp | xbmc/ApplicationStackHelper.cpp:151-175 | the ends are as far apart as the parts last |
| StackTimes.HoldsOnce | xbmc/ApplicationStackHelper.cpp:213-225 | at most one part holds a time |
| StackTimes.StackHelper.PartNumberAt | xbmc/ApplicationStackHelper.cpp:213-225 | a time below the total selects the part that holds it, any other part 0; the part never starts after the time |
| StackTimes.StackHelper.SetTimes | xbmc/ApplicationStackHelper.cpp:142-175 | the ends come from the database, as many as it has, or add up the files' durations; fails exactly if one is unknown |
| StackTimes.StackHelper.RegisterParts | xbmc/ApplicationStackHelper.cpp:173-179 | with distinct paths the map knows start, total and number of every part |
| StackTimes.StackHelper.StartPartAndOffset | xbmc/ApplicationStackHelper.cpp:186-211 | part start and offset add up to the time asked for or remembered, whatever it is; without a bookmark resuming starts at the beginning; the subtraction never wraps |
| StackTimes.BookmarkResumes | xbmc/ApplicationStackHelper.cpp:186-211 | a bookmark taken inside a part leads back to that part and offset |
| StackTimes.ResumesAtBookmark | xbmc/ApplicationStackHelper.cpp:191-203 | resuming starts at the bookmark's millisecond |
| StackTimes.Application.SeekTime | xbmc/Application.cpp:4641-4665 | seeking stays in the part or selects the one that holds the time, with the offset left over |
| StackTimes.Application.SeekAndPlay | xbmc/Application.cpp:4618-4634 | the current time after a seek is the time asked for |
| StackTimes.Application.OnPlayerCloseFile | xbmc/Application.cpp:3314-3369 | the bookmark is corrected by the start, total and number of the part, and saved exactly if it lies beyond the first seconds and before the last percents that the user has set |
| StackTimes.Application.StopAndResume | xbmc/Application.cpp:3343-3369 | stopping in a part at an offset and resuming continues there exactly if the time is one that is worth a bookmark, or is the beginning; otherwise it starts over |
| StackTimes.StopsForgotten | xbmc/settings/AdvancedSettings.cpp:131-132 | with the settings as they come, stopping after a minute leaves no bookmark, nor does stopping 200 seconds before the end of an hour |
| StackTimes.NearEndMeans | xbmc/Application.cpp:3343-3345 | near the end means beyond the share of the whole that the percents leave |
| CueTime.ExtractTimeFromIndex | xbmc/CueDocument.cpp:419-441 | the error mark is returned exactly if there are not three parts |
| CueTime.NoTimeIsTheMark | xbmc/CueDocument.cpp:436-440 | no three numbers, negative ones included, give the error mark |
| CueTime.TimeIncreases | xbmc/CueDocument.cpp:440 | the conversion to milliseconds is strictly increasing and injective for seconds below 60 and frames below 75 |
| CueTime.RoundTrip | xbmc/CueDocument.cpp:419-441 | a time written as MM:SS:FF is read as its value |
| CueTime.SignedReads | xbmc/CueDocument.cpp:436-440 | a number with a sign is read as that |
| CueSheet.ReadFails | xbmc/CueDocument.cpp:286-299 | a sheet is refused exactly for a mangled time or a track split over files |
| CueSheet.TracksTile | xbmc/CueDocument.cpp:301-305 | if every track comes after a named file, each track of an accepted sheet ends where the next of its file starts, and is open before another file and at the end |
| CueSheet.TilesExactly | xbmc/CueDocument.cpp:301-305 | an accepted sheet tiles exactly if, for each later track begun while no file was named, the last time given for it while the file of the track before was current is its last time at all, if that file is no name either, and else 0 |
| CueSheet.UnnamedTracksNeedNotTile | xbmc/CueDocument.cpp:301-305 | an accepted sheet with a track before the first file that does not tile |
| CueSheet.UnnamedTrackEndsAnother | xbmc/CueDocument.cpp:301-305 | one whose track after an empty file name ends the track before it, which belongs to another file |
| CueSheet.DurationsTelescope | xbmc/CueDocument.cpp:198-204 | within a file the durations add up to the distance between the first and the last start |
| CueSheet.LastEndIsOpen | xbmc/CueDocument.cpp:376-379 | the last track's end is open before it is set so |
| CueSheet.SheetRoundTrip | xbmc/CueDocument.cpp:268-387 | the lines written for files and their tracks are read as those tracks, numbers, titles, performers, starts and ends included, in the files the names resolve to |
| CueSheet.AlbumIsRead | xbmc/CueDocument.cpp:310-324 | title and performer before the first track are the album's |
| CueSheet.NumberedInTurn | xbmc/CueDocument.cpp:325-341 | tracks without a number are numbered in turn |
| CueSheet.CueDocument.Parse | xbmc/CueDocument.cpp:268-387 | the line loop computes that reading in place; accepted exactly if nothing is wrong and there is a track |
| CueReader.BufferReader.ReadLine | xbmc/CueDocument.cpp:118-137 | yields the ended, trimmed, non-blank lines one by one |
| CueReader.LinesReadBack | xbmc/CueDocument.cpp:118-137 | lines written with either kind of line end, or both, are read back in order |
| CueReader.TrimTakesSpace | xbmc/CueDocument.cpp:128 | trimming takes space away at both ends and nothing else |
| CueReader.UnendedLineIsLost | xbmc/CueDocument.cpp:118-137 | what follows the last line end is never read |
| PartyMode.HistoryLimit | xbmc/PartyModeManager.cpp:166-172 | below 50 matches the history has no limit; from 50 on it holds half of them, at most 200 |
| PartyMode.NoRepeatStep | xbmc/PartyModeManager.cpp:679-684 | a pick keeps the no-repeat property exactly if the history does not hold it |
| PartyMode.SongsLeft | xbmc/PartyModeManager.cpp:166-172 | how many songs the history leaves to pick from: always one from 50 matches on |
| PartyMode.Manager.AddToHistory | xbmc/PartyModeManager.cpp:679-684 | the history stays exactly the latest picks up to its limit |
| PartyMode.Manager.ReapSongs | xbmc/PartyModeManager.cpp:445-467 | what comes before the current song goes, the rest stays, user songs stay first |
| PartyMode.Manager.MovePlaying | xbmc/PartyModeManager.cpp:469-490 | after reaping, neither queue is changed and the current song is on top |
| PartyMode.Manager.AddRandomSongs | xbmc/PartyModeManager.cpp:298-427 | fills the queue with songs of the party that do not repeat; how many, and when exactly it fails |
| PartyMode.Manager.Process | xbmc/PartyModeManager.cpp:289-296 | current song at 0, at least 10 queued, no pick repeats one the history holds; fails exactly if fewer than 50 match and they run out, each picked once, or the database does not open |
| PartyMode.Manager.AddUserSongs | xbmc/PartyModeManager.cpp:230-257 | user songs go below the current song or below earlier ones, ahead of every random one; everything `Process` needs is kept |
| PartyMode.Manager.Enable | xbmc/PartyModeManager.cpp:48-210 | starts exactly if the database opens and 10 songs match, with 10 different songs of the party, in any order, and the history they make |

## Left out

- X11 calls, argument parsing, printing, properties, the RandR 1.1 path, grabbing the server, the primary output, dry runs and DPI; sizes in millimetres are inputs
- gamma and brightness, which rollback does not restore either; panning is set but not rolled back
- mode selection and the tests of rotation and transform support: chosen modes are inputs, and reported by the server
- outputs the server does not know and `--scale-from`; loading covers outputs the server reported
- 32-bit wrap-around of sizes and counts, and rounding of doubles: coordinates, seconds and transforms are exact
- the server's transform takes effect with the next configuration that is granted, as the protocol describes; nothing else is assumed of it
- Geometry.ModeGeometry: yields the box only; the width and height it also reports are differences of its sides
- Configure.Configure: takes the number of sweeps as an input, because the placement loop need not end; `PinnedCycles.EndsWithinCount` says how many are enough
- Configure.Configure: says what a screen size or CRTC that cannot be had means on the records at that point, not in terms of the state before loading
- Transaction.Apply: promises nothing about the server when panning is asked of a server before 1.3, where the program stops without rolling back
- Placement.PlacedMeansHolds: needs that related outputs were not placed beforehand, or already fit; `PinnedPlacement` and `PinnedCycles` have the rest
- the linked list of outputs is a sequence and a pointer to a CRTC an index; loop bodies are methods of their own
- TextureManager.Manager.ReleaseImage: needs a path that is held to have references, as balanced clients ensure
- job threads: each locked method is one step, and completions come at any time; the frame time is an input
- FileStacking.Listing.StackFiles: expressions, names and stack paths are parameters; that stack paths read back is a condition, and labels and the path index are left out
- items of lists are values with an identifier, so a shared item changed elsewhere is not seen
- FileLists.FileItemList.Load: only for archives that start with a stored list
- FileLists.FileItemList.Store: fields written in any case share a cell, tags are one string each, and bytes are not modelled
- sorting, filtering and the other operations of file lists
- stacks of disc images, watched counts, profiles that may not write the database, and the integer type of the returned offset
- StackTimes.StackHelper.SetTimes: says nothing of ends for which the database has no time, which the program reads past its vector
- StackTimes.Application.PlayPending: the player starts the part it is told to play; opening can fail in the program
- cue sheet lines come with their keyword recognised; genre, year, disc number and replay gain are left out
- CueTime.ExtractTimeFromIndex: numbers are unbounded, where the program's overflow
- mixed-type party mode, statistics other than the picks, and playback that fails
- PartyMode.Manager.Enable: promises nothing about the queue when it fails
