# Verified model of the client's state machines

This project models the stateful cores of the TypeScript client in Dafny and proves what they keep,
over every input, every reachable state and every run.

- **Terminal panes** (`PaneTree`, the other `Pane` modules): a layout is a tree of weighted splits over panes with
  tabs. A layout is given a meaning, each pane's rectangle in real coordinates, and flattening,
  splitting, merging, dropping, closing, tabs and resizing are proved against that meaning, as is which tab
  each pane shows.
- **Terminal state** (the `Terminal` modules but for the links, `UniqueNames`): the normaliser that repairs any
  stored state and what the repaired state says, the whole state after every transition, the invariant of all
  runs, whether the active terminal is in sight, and the store of threads.
- **Split views** (`SplitTree`, `SplitViews`, `SplitEffects`, `SplitAnchors`, `SplitViewStore`): the pane tree with its
  depth cap and alternating axes, and the second map from a source thread to its view.
- **Session derivation** (`StableSort`, `Activities`, `ActivityOrder`, `Timeline`, `WorkLog`, `WorkLogRows`): one theory
  of stable sorting, used for the skipped sort, the pending requests and the two-stage timeline merge; and which
  work log entries share a row.
- **Composer** (`ComposerSegments`, `ComposerCursor`, `ComposerWritten`): cutting a prompt into segments and moving a cursor
  between chip and text coordinates.
- **Drafts** (`DraftThreads`, `DraftEffects`, `DraftStore`, `DeepEqual`), **transcripts** (`HistoryBootstrap`), **key bindings**
  (`Keybindings`, `KeybindingRules`) and **terminal links** (`TerminalLinks`).

Where the source works by changing things step by step, the model does too: loops are methods with
invariants and stores are classes whose fields are the source's maps, each proved equal to a
function, and the theorems are about that function. `Strings`, `Sequences` and `Wrappers` hold shared helpers.

Choices that hold throughout:

- Weights, ratios and sizes are real numbers; a number that is not finite arrives as `None`, or as the
  weight 0.0, which the source treats alike.
- `localeCompare` is a place in an unknown order: texts may share a place without being equal.
- Regular expressions are match lists or functions given as parameters; only that a match lies inside
  its text is assumed. How texts are put into lower case is a parameter too.
- Ids drawn from a generator are parameters that do not repeat. Split view and thread ids are numbers there,
  so none is empty.
- Times of change, which every update stamps and nothing reads back, are not kept.

Several expectations turned out false of the code. Each has a concrete input and an exact condition:

| expectation | exact condition | input |
|---|---|---|
| normalising a terminal state twice is normalising it once | `TerminalState.NormalizeIdempotent` | `TerminalState.PaddedTwinsExist` |
| an open terminal can be moved beside the active one | `TerminalMoves.MoveBesideIff` | `TerminalMoves.ActiveMovesAway` |
| a tab can be opened beside any terminal | `TerminalStore.TabNeedsOpenTarget` | `TerminalStore.StrayTabBreaksDefault` |
| a title made up for a terminal is its own | `TerminalTitles.MadeUpTitleTwiceIff` | `TerminalTitles.TitleShownTwice` |
| the active terminal is the tab its pane shows | `TerminalFacing.StepSight`, `TerminalFacing.RunSight` | `TerminalFacing.MiddleTabHides` |
| closing a pane just split off undoes the split | `PaneClose.CloseUndoesSplit` | `PaneClose.MergedSplitStays` |
| panes keep their proportions when another is dropped | `PaneDrops.SurvivorsKeepProportions` | `PaneDrops.DropsSkewRows` |
| every split view is indexed | `SplitViews.StepKeeps` | `SplitViews.TwinStrandsView` |
| the composer's cursor maps fit the prompt | `ComposerCursor.ConnectedIff`, `ComposerCursor.ReturnsIff` | `ComposerCursor.QuotedMentionFallsShort`, `ComposerCursor.BareDomainOvershoots` |
| a transcript that fits is sent whole | `HistoryBootstrap.BuildBootstrapInput` | `HistoryBootstrap.EmptyOldestIsLost` |
| a label shows a chord that works | `Keybindings.LabelIsDispatchedIff` | `Keybindings.ShadowedFallback` |
| a promoting draft is never offered again | `DraftThreads.OfferedAgainIff` | `DraftThreads.EmptyTargetIsForgotten` |
| structural equality is symmetric | `DeepEqual.DeepEqualIff` | `DeepEqual.InheritedNameOneWay` |

`dafny verify dfyconfig.toml` checks the whole project.

## Model
| member | source | states |
|---|---|---|
| `UniqueNames.CreateUniqueTitle` | frontend/src/terminalStateStore.ts:164-191 | The numbered title is not taken, and it is the first free one, found within one more candidate than there are taken titles. |
| `UniqueNames.AssignUniqueGroupId` | frontend/src/terminalStateStore.ts:219-228 | The group id is not in use, is recorded as used, and is the base itself when that is free. |
| `UniqueNames.UniqueGroupId` | frontend/src/terminalStateStore.ts:219-228 | A free id; a base without surrounding white space gives an id without surrounding white space. |
| `UniqueNames.GroupIdIsFirst` | frontend/src/terminalStateStore.ts:219-228 | The id is the base, or when that is taken the base with the first number from 2 on that is free. |
| `UniqueNames.ScriptIdIsSlug` | frontend/src/projectScripts.ts:8-22 | Any name becomes words of lower-case letters and digits joined by single dashes, within the cap; a name that is one already stays. |
| `UniqueNames.ScriptIdReads` | frontend/src/projectScripts.ts:8-22 | The id is the words of the name, in lower case, joined by single dashes, cut at the cap and not left ending in a dash. |
| `UniqueNames.NextProjectScriptId` | frontend/src/projectScripts.ts:41-61 | The id is the normalised name when that is free, else the first numbered candidate that is, its base cut no more than the cap asks; the last resort only when all are taken, so the id is free whenever fewer than 9998 are. |
| `UniqueNames.ScriptNamesDiffer` | frontend/src/projectScripts.ts:46-57 | Different suffixes give different candidates, even where the base is cut to make room for the numeral. |
| `PaneTree.FlattenSplitChildren` | frontend/src/terminalPaneLayout.ts:74-101 | The loop that fills the two arrays computes the flattened row: same-direction children give up their own children with shares of their weight. |
| `PaneNormal.SanitizeIsNormal` | frontend/src/terminalPaneLayout.ts:103-144 | Whatever tree comes in, a sanitised tree is normal: proper panes, aligned positive weights, at least two children a split, no split directly inside one of its own direction. |
| `PaneNormal.SanitizeFixedPoints` | frontend/src/terminalPaneLayout.ts:103-144 | Sanitising leaves a tree alone exactly when it is normal, so sanitising twice is sanitising once. |
| `PaneNormal.SanitizeKeepsOrder` | frontend/src/terminalPaneLayout.ts:103-144 | The valid terminals keep their left-to-right order, for every tree and every set of valid ids; the tree goes exactly with its last one. |
| `PaneNormal.SanitizeTidy` | frontend/src/terminalPaneLayout.ts:103-144 | A tree whose panes are all proper is kept, made normal, with the same terminals in order. |
| `PaneTabs.StoredPane` | frontend/src/terminalPaneLayout.ts:25-55 | A stored pane keeps its open terminals once each, in order, or the single one of an old record when it lists none, and goes when it has neither; it shows the tab it showed if that is kept, else its first. |
| `PaneGeometry.SanitizeKeepsPanes` | frontend/src/terminalPaneLayout.ts:74-144 | When there is nothing to drop, sanitising gives every pane exactly the rectangle it had, left to right. |
| `PaneGeometry.FlattenKeepsRow` | frontend/src/terminalPaneLayout.ts:74-101 | Flattening a row leaves every pane's rectangle, and the total length, as they were. |
| `PaneGeometry.PanesTile` | frontend/src/terminalPaneLayout.ts:67-72 | The panes drawn from weights tile their rectangle: inside it, no two overlapping, areas adding up. |
| `TerminalRepair.MissingWeightIsOne` | frontend/src/terminalPaneLayout.ts:63-72 | A missing weight, or one that is not positive, is drawn as the weight one. |
| `PaneSplit.SplitHalvesPane` | frontend/src/terminalPaneLayout.ts:249-333 | Splitting a pane of a normal tree gives the old and the new pane exactly half of its rectangle each, on the requested sides, and moves no other pane. |
| `PaneEdit.MergeIsFlattening` | frontend/src/terminalPaneLayout.ts:249-333 | The shortcut that merges the new pane into its parent's row gives exactly what plain nesting followed by sanitising gives. |
| `PaneEdit.SplitIsNormal` | frontend/src/terminalPaneLayout.ts:249-333 | A split normal tree is normal. |
| `PaneEdit.SplitAddsTerminal` | frontend/src/terminalPaneLayout.ts:249-333 | A split adds the new terminal once and no other. |
| `PaneClose.RemoveTerminalFromLayoutNode` | frontend/src/terminalPaneLayout.ts:359-423 | The loop over children and weights computes the removal, with its removed flag. |
| `PaneClose.RemoveDropsTerminal` | frontend/src/terminalPaneLayout.ts:359-423 | Closing takes exactly that terminal out of the left-to-right order and leaves proper panes; it reports removal exactly when the terminal was there. |
| `PaneTabs.ClosedTab` | frontend/src/terminalPaneLayout.ts:363-391 | A pane that loses its visible tab shows the one that followed it, else the one before; otherwise it goes on showing the tab it showed. |
| `PaneFacing.NeighbourFaces` | frontend/src/terminalPaneLayout.ts:171-423 | Once a terminal in sight is closed its neighbour in the tree is in sight, exactly unless that is behind another tab of another pane. |
| `PaneClose.CloseUndoesSplit` | frontend/src/terminalPaneLayout.ts:249-423 | Closing the terminal just split off gives the tree back exactly when the new pane was nested, not merged into a row. |
| `PaneClose.CloseMerged` | frontend/src/terminalPaneLayout.ts:300-423 | When it was merged, the tree comes back but for its neighbour's weight, which stays halved. |
| `PaneClose.MergedSplitStays` | frontend/src/terminalPaneLayout.ts:300-423 | Two panes side by side, the left one split to its right: closing the new pane does not give the tree back. |
| `PaneCloseEffects.CloseStaysInChild` | frontend/src/terminalPaneLayout.ts:359-423 | While the child holding the terminal keeps a pane, closing redraws that child within its own strip and moves no other pane. |
| `PaneCloseEffects.CloseGrowsSiblings` | frontend/src/terminalPaneLayout.ts:359-423 | When the child goes, its siblings fill the row in their old proportions, each longer by the factor of the whole row's weight to theirs. |
| `PaneDrops.SurvivorsKeepProportions` | frontend/src/terminalPaneLayout.ts:123-143 | When sanitising drops children, the survivors fill the row with its leading weights, so they keep their proportions exactly when those are proportional to the weights they had. |
| `PaneDrops.DroppedPaneSkews` | frontend/src/terminalPaneLayout.ts:123-143 | Weights 3, 1 and 2 with the first child gone: the others are drawn 3 to 1 where they were 1 to 2. |
| `PaneDrops.DropsSkewRows` | frontend/src/terminalPaneLayout.ts:123-143 | A row whose first pane lists only a closed terminal, on which this happens. |
| `PaneUpdate.ActivateKeeps` | frontend/src/terminalPaneLayout.ts:449-512 | Choosing a visible tab keeps the tree normal and every terminal in place. |
| `PaneUpdate.AddTabKeeps` | frontend/src/terminalPaneLayout.ts:449-493 | Adding a tab keeps the tree normal and adds that terminal once. |
| `PaneUpdate.UpdateFinds` | frontend/src/terminalPaneLayout.ts:449-473 | An update reports a change exactly when the terminal is listed, and otherwise returns the tree as it was. |
| `PaneEffects.UpdateEditsPane` | frontend/src/terminalPaneLayout.ts:449-512 | In the picture, a new tab or a turned tab edits exactly the panes listing the terminal; no pane moves. |
| `PaneEffects.ActivateShows` | frontend/src/terminalPaneLayout.ts:495-512 | A chosen tab is the visible one in every pane that lists it, which keeps its tabs, name and rectangle; every other pane is as it was. |
| `PaneEffects.AddTabShows` | frontend/src/terminalPaneLayout.ts:475-493 | A new tab comes last in the pane listing its target and is the visible one; every other pane is as it was. |
| `PaneUpdate.ResizeKeeps` | frontend/src/terminalPaneLayout.ts:514-550 | Any weights at all leave the tree normal with its terminals in place. |
| `PaneEffects.ResizeSetsWeights` | frontend/src/terminalPaneLayout.ts:514-550 | The named split takes the given weights, normalised, and giving back the weights it had restores the tree. |
| `TerminalGroups.NormalizeTerminalGroups` | frontend/src/terminalStateStore.ts:239-295 | The loops that fill the group list and the used sets compute the repaired groups. |
| `TerminalGroups.NormalizeGroupsPartition` | frontend/src/terminalStateStore.ts:239-295 | For any stored groups, the repaired groups have distinct ids and divide exactly the open terminals among them, each group in order. |
| `TerminalRepair.GroupShowsClaim` | frontend/src/terminalPaneLayout.ts:210-232 | A repaired group shows exactly the open terminals it claims, by its layout or by its old list; its stored choice stands if it is shown, else the first is chosen. |
| `TerminalRepair.GroupsShowClaims` | frontend/src/terminalStateStore.ts:239-295 | The repaired groups show, in the stored order, what each stored group claims and none before it did, then every unclaimed terminal in a group of its own. |
| `TerminalRepair.LegacyDrawn` | frontend/src/terminalPaneLayout.ts:146-158 | An old group, listed without a layout, is drawn in columns of one width in the order of its list. |
| `TerminalGroupsStable.TidyGroupsSettle` | frontend/src/terminalStateStore.ts:239-295 | Groups that already divide the terminals are kept one by one, each only sanitised. |
| `TerminalGroupsStable.PartitionFixed` | frontend/src/terminalStateStore.ts:239-295 | Repairing repaired groups changes nothing. |
| `TerminalState.EnsureTerminalLabels` | frontend/src/terminalStateStore.ts:193-213 | The loop over terminals computes the labels. |
| `TerminalState.EnsureLabelsOk` | frontend/src/terminalStateStore.ts:193-213 | Every terminal ends up with a clean label, labels that were there stay, and complete labels are left alone. |
| `TerminalState.NormalizeSettles` | frontend/src/terminalStateStore.ts:377-450 | Normalising any stored state settles it: clean distinct terminals, groups dividing exactly these, records only of open terminals, an active terminal and an active group that agree. |
| `TerminalRepair.NormalizeKeeps` | frontend/src/terminalStateStore.ts:377-450 | What the repaired state says: the listed terminals once each, groups as claimed, the stored active terminal and group where they are there, the running ones as listed. |
| `TerminalState.SettledFixed` | frontend/src/terminalStateStore.ts:377-450 | A settled state changes only in its list of running terminals, and not at all when that lists nothing twice. |
| `TerminalState.NormalizeIdempotent` | frontend/src/terminalStateStore.ts:63-72 | Normalising twice is normalising once exactly when no open terminal is stored as running under two different paddings. |
| `TerminalStored.NormalizeRawSettles` | frontend/src/terminalStateStore.ts:74-132 | The same two results for stored threads as they come, with record entries in order and keys and texts padded. |
| `TerminalStored.RawEntryIsRead` | frontend/src/terminalStateStore.ts:74-132 | An open terminal gets the override, tool and mark of the last entry whose key trims to its id, and its label if such an entry says one. |
| `TerminalState.PaddedTwinsExist` | frontend/src/terminalStateStore.ts:69-71 | There is a stored state that a second pass changes: running ids are deduplicated before they are trimmed. |
| `TerminalTitles.MadeUpTitleTwiceIff` | frontend/src/terminalStateStore.ts:164-213 | A title made up for a terminal is shown by another one exactly when that one comes later, has no label, and was named so by hand. |
| `TerminalTitles.TitleShownTwice` | frontend/src/terminalStateStore.ts:193-213 | Two terminals without labels, the second named Terminal 1 by hand: both show that title. |
| `TerminalRuns.CandidateNormalizes` | frontend/src/terminalStateStore.ts:377-450 | The normaliser every transition ends with keeps its terminals, groups and active terminal, and restores the invariant. |
| `TerminalRuns.OpenAloneKeeps` | frontend/src/terminalStateStore.ts:498-590 | A fresh terminal opened alone is appended as a group of its own, becomes active, and leaves the other groups' terminals in place. |
| `TerminalEffects.OpenAloneShows` | frontend/src/terminalStateStore.ts:498-590 | The whole state after: a group of one pane behind the others, which stay as they are, with the first free group id and the first free numbered title. |
| `TerminalRuns.OpenBesideKeeps` | frontend/src/terminalStateStore.ts:498-590 | A fresh terminal opened beside the active one splits the active group exactly when that is below the cap; otherwise nothing changes. |
| `TerminalEffects.OpenBesideShows` | frontend/src/terminalStateStore.ts:498-590 | The whole state after: below six terminals the new one takes half of the active terminal's pane on the side named, and every other pane and group stays; else nothing changes. |
| `TerminalRuns.OpenTabKeeps` | frontend/src/terminalStateStore.ts:872-916 | A fresh tab joins the group showing its target exactly when that is below the cap; otherwise nothing changes. |
| `TerminalEffects.OpenTabShows` | frontend/src/terminalStateStore.ts:872-916 | The whole state after: below six terminals the target's pane has one more tab, the last and visible one, and every other pane and group stays; else nothing changes. |
| `TerminalRuns.OpenFullWidthKeeps` | frontend/src/terminalStateStore.ts:1070-1083 | Opening at full width keeps the invariant. |
| `TerminalEffects.OpenFullWidthShows` | frontend/src/terminalStateStore.ts:1070-1083 | It is opening alone, with the page turned into an open workspace of terminals only. |
| `TerminalRuns.ChooseKeeps` | frontend/src/terminalStateStore.ts:918-951 | Choosing an open terminal makes it active and moves no terminal between groups. |
| `TerminalEffects.ChooseShows` | frontend/src/terminalStateStore.ts:918-951 | The whole state after: its pane shows the chosen terminal, its group has chosen it and is active, its review mark is gone; every other pane, group and record stays. |
| `TerminalRuns.ResizeRuns` | frontend/src/terminalStateStore.ts:1043-1068 | Resizing keeps the invariant, the groups' terminals and what is active. |
| `TerminalEffects.ResizeShows` | frontend/src/terminalStateStore.ts:1043-1068 | The group's splits with the id take the weights, normalised; nothing else in the state changes. |
| `TerminalRuns.ReportKeeps` | frontend/src/terminalStateStore.ts:1097-1135 | Reporting activity sets exactly this terminal's running mark and attention. |
| `TerminalRuns.SetOverrideKeeps` | frontend/src/terminalStateStore.ts:817-841 | A title override shows trimmed as this terminal's title, a blank one is removed, other titles stay. |
| `TerminalRuns.SetKindKeeps` | frontend/src/terminalStateStore.ts:775-815 | A terminal renamed after its tool shows a title no other open terminal shows. |
| `TerminalEffects.SetKindTitles` | frontend/src/terminalStateStore.ts:775-815 | The title is the tool's name with the first number no other title has. |
| `TerminalEffects.SetKindLeavesLabels` | frontend/src/terminalStateStore.ts:775-815 | A terminal named by hand, or left without a tool, keeps its label. |
| `TerminalRuns.SetKindChanges` | frontend/src/terminalStateStore.ts:775-815 | Setting the tool changes that terminal's kind and label and nothing else. |
| `TerminalRuns.SetMetadataKeeps` | frontend/src/terminalStateStore.ts:727-773 | Metadata keeps the invariant, and a tool gives a terminal without an override a title no other open terminal shows. |
| `TerminalEffects.SetMetadataTitles` | frontend/src/terminalStateStore.ts:727-773 | So it is when the tool is reported with metadata. |
| `TerminalRuns.SetMetadataChanges` | frontend/src/terminalStateStore.ts:727-773 | Metadata sets that terminal's kind; its label stays under an override, is otherwise the reported text when no tool is named, and nothing else changes. |
| `TerminalRuns.LookKeeps` | frontend/src/terminalStateStore.ts:592-725 | Each setter of page, presentation, tab, layout and height keeps the invariant, changes the view as it does and may mark the active terminal as seen, and leaves everything else alone. |
| `TerminalEffects.LookShows` | frontend/src/terminalStateStore.ts:592-725 | What each page setter brings about, field by field; turning to the terminals marks the active one as seen, and nothing else changes. |
| `TerminalRuns.EditViewTwice` | frontend/src/terminalStateStore.ts:592-725 | Each of these setters does in one call what it does in two. |
| `TerminalPages.StepKeepsTab` | frontend/src/terminalStateStore.ts:592-1135 | No action, from any state, leaves the chat tab chosen in a workspace of terminals only, if it was not. |
| `TerminalPages.RunShowsTab` | frontend/src/terminalStateStore.ts:592-1135 | In every run from the default state the chosen tab of the workspace is on screen. |
| `TerminalClosing.CloseKeeps` | frontend/src/terminalStateStore.ts:953-1025 | Closing one of several terminals removes exactly it from the list and its group, dropping a group it leaves empty, and keeps a different active terminal active. |
| `TerminalClosing.CloseActiveStays` | frontend/src/terminalStateStore.ts:953-1025 | Closing the active terminal of a group that shows another one stays in that group. |
| `TerminalCloseEffects.CloseInGroupShows` | frontend/src/terminalStateStore.ts:953-1025 | The whole state after a close in a group that shows others: its pane loses the tab, records of it are gone, and the group's next terminal is active if it was: the neighbour in a split, else the first tab. |
| `TerminalCloseEffects.CloseAloneShows` | frontend/src/terminalStateStore.ts:953-1025 | The whole state after closing a group's last terminal: the group goes; if it was active the terminal beside it in the list is active, in a pane that shows it; every other group stays. |
| `TerminalCloseEffects.AdjacentIs` | frontend/src/terminalPaneLayout.ts:171-184 | The adjacent terminal of a split is the one that follows, or else the one before. |
| `TerminalInvariant.ClosedLastKeeps` | frontend/src/terminalStateStore.ts:959-973 | Closing the last terminal gives the default state; a terminal page keeps its page and sizes. |
| `TerminalInvariant.CloseGroupKeeps` | frontend/src/terminalStateStore.ts:1027-1041 | Closing a group one terminal at a time removes exactly its group and its terminals, and resets to the default when it was the only group. |
| `TerminalInvariant.StepKeeps` | frontend/src/terminalStateStore.ts:498-1135 | Every action but the layout preset keeps the invariant: openings with fresh ids, a tab on an open target, any other action on anything. |
| `TerminalInvariant.RunKeeps` | frontend/src/terminalStateStore.ts:498-1135 | So does every run from the default state. |
| `TerminalInvariant.EachTerminalOnce` | frontend/src/terminalStateStore.ts:498-1135 | Under the invariant each open terminal is listed exactly once over all panes of all groups. |
| `TerminalMoves.MoveAlone` | frontend/src/terminalStateStore.ts:498-590 | An open terminal opened alone leaves its pane, and its group if it was alone there, and becomes the last group and active; the invariant holds. |
| `TerminalMoves.MoveBeside` | frontend/src/terminalStateStore.ts:498-590 | Another open terminal opened beside the active one moves into the active group, which keeps its terminals; the invariant holds exactly when it was there already or there is room. |
| `TerminalMoves.MoveBesideIff` | frontend/src/terminalStateStore.ts:498-590 | For any open terminal: the invariant holds exactly when it is the active one and alone in its group, or another one of that group, or the group has room for it. |
| `TerminalMoves.ActiveMovesAway` | frontend/src/terminalStateStore.ts:498-590 | Two tabs in one pane, the second active: opened beside itself it is active outside the active group. |
| `TerminalMoves.NothingOpens` | frontend/src/terminalStateStore.ts:487-590 | Without an id nothing opens, and an open terminal is not opened as a tab. |
| `PaneFacing.ClosedLeafs` | frontend/src/terminalPaneLayout.ts:359-423 | The panes left after a close are the panes that were, each without the tab, in their order. |
| `TerminalFacing.StepSight` | frontend/src/terminalStateStore.ts:498-1135 | If every group's chosen terminal is the visible tab of its pane, it is so after any action, exactly unless that closes a chosen terminal whose next one is behind another tab: in a single pane, when tabs stay on its left. |
| `TerminalFacing.RunSight` | frontend/src/terminalStateStore.ts:498-1135 | In every run from the default state all chosen terminals stay visible throughout exactly when no such close occurs. |
| `TerminalFacing.ActiveIsVisible` | frontend/src/terminalStateStore.ts:498-1135 | Then the active terminal is the tab a pane of the active group shows. |
| `TerminalFacing.MiddleTabHides` | frontend/src/terminalPaneLayout.ts:372-447 | Three tabs in one pane, the middle one chosen and closed: the first becomes active while the pane shows the last. |
| `TerminalStore.TabNeedsOpenTarget` | frontend/src/terminalStateStore.ts:872-916 | A tab on a target that is not open keeps the invariant exactly when the active group is full and nothing happens: otherwise the new terminal is active outside the active group. |
| `TerminalStore.StrayTabBreaksDefault` | frontend/src/terminalStateStore.ts:872-916 | Such a tab breaks the invariant of the default state. |
| `TerminalStore.Store.Apply` | frontend/src/terminalStateStore.ts:1204-1228 | The store replaces one thread's state by the transition of the action, forgets it when it is the default, and leaves every other thread alone. |
| `TerminalStore.Store.Clear` | frontend/src/terminalStateStore.ts:1375-1376 | Clearing forgets one thread. |
| `TerminalStore.Store.RemoveOrphans` | frontend/src/terminalStateStore.ts:1377-1388 | The loop over orphans keeps exactly the active threads' states. |
| `SplitTree.ClampRatio` | frontend/src/splitViewStore.ts:125-128 | The ratio is the nearest one within [0.25, 0.75]; a missing one is a half. |
| `SplitTree.LeavesWithin` | frontend/src/splitView.logic.ts:174-200 | Trees two splits deep have at most four leaves. |
| `SplitTree.FindLeafIs` | frontend/src/splitView.logic.ts:29-42 | With distinct ids, looking up a leaf finds the one leaf with that id. |
| `SplitTree.ReplaceInPlace` | frontend/src/splitView.logic.ts:85-99 | Replacing a leaf exchanges it, where it stood, for the replacement's leaves, and touches no other. |
| `SplitTree.ReplaceKeepsOutline` | frontend/src/splitView.logic.ts:85-99 | Exchanging a pane for one of the same outline keeps the tree well formed. |
| `SplitTree.SubdivideKeeps` | frontend/src/splitView.logic.ts:176-200 | A permitted subdivision keeps depth, alternating axes and distinct ids. |
| `SplitTree.SubdivideOkIff` | frontend/src/splitView.logic.ts:176-200 | A leaf may be subdivided exactly when the result keeps depth and alternation. |
| `SplitTree.PruneKeeps` | frontend/src/splitView.logic.ts:107-169 | However leaves are removed, collapsing never puts two splits of one axis inside each other. |
| `SplitTree.RemovePaneIsPrune` | frontend/src/splitView.logic.ts:140-169 | Removing a pane takes out that leaf alone. |
| `SplitTree.RemoveThreadIsPrune` | frontend/src/splitView.logic.ts:107-136 | Removing a thread takes out exactly the panes showing it. |
| `SplitTree.RemoveThreadInAnyOrder` | frontend/src/splitView.logic.ts:107-169 | Removing a thread leaves precisely the other leaves in order and equals removing its panes one at a time in any order. |
| `SplitTree.RemoveUndoesDrop` | frontend/src/splitView.logic.ts:85-169 | Removing the pane a drop created restores the tree exactly. |
| `SplitViews.StepKeeps` | frontend/src/splitViewStore.ts:411-755 | Every step keeps each view well formed, its focus a leaf, its source shown, and each index entry naming a live view of that source; it keeps every view indexed exactly when it is not a close that strands its view. |
| `SplitViews.EveryRun` | frontend/src/splitViewStore.ts:411-755 | In every run from the empty store: depth at most two, alternating axes, at most four leaves, distinct ids, bounded ratios, focus on a leaf, consistent index. |
| `SplitViews.EveryTwinlessRun` | frontend/src/splitViewStore.ts:411-755 | In runs that never place one thread in two panes of a view, every view is indexed and no two share a source. |
| `SplitViews.CloseKeeps` | frontend/src/splitViewStore.ts:558-636 | Closing a pane keeps the store consistent, and takes a view out of the index exactly when its thread also shows in another pane that is next in line. |
| `SplitViews.TwinStrandsView` | frontend/src/splitViewStore.ts:576-618 | A run with a thread in two panes that leaves a live view the index does not name. |
| `SplitViews.CloseUndoesDrop` | frontend/src/splitViewStore.ts:528-636 | Dropping a thread on a pane and closing the pane it got restores the store but for the focus. |
| `SplitEffects.NextSourceIff` | frontend/src/splitViewStore.ts:297-311 | The next source is the thread of the first leaf that is not the source of another view, if there is one. |
| `SplitEffects.FocusShows` | frontend/src/splitViewStore.ts:637-648 | Focus moves exactly to leaves of the view, and nothing else changes. |
| `SplitEffects.RatioShows` | frontend/src/splitViewStore.ts:649-663 | A split takes the clamped ratio; every pane and the focus stay. |
| `SplitEffects.PanelShows` | frontend/src/splitViewStore.ts:664-686 | A pane takes the panel state; no other pane changes. |
| `SplitEffects.FromThreadShows` | frontend/src/splitViewStore.ts:411-429 | Opening from a thread gives it a view of itself and an empty focused pane, or leaves the one it has. |
| `SplitEffects.FromDropShows` | frontend/src/splitViewStore.ts:430-445 | A drop beside a source shows the two threads on the sides named, in the source's own view, and changes no other view. |
| `SplitEffects.DropShows` | frontend/src/splitViewStore.ts:528-557 | A permitted drop puts the thread beside its target on the named side, focused, and moves no other pane. |
| `SplitEffects.DropAllowedIff` | frontend/src/splitViewStore.ts:528-557 | A drop succeeds exactly on a leaf of the view whose subdivision keeps depth and axes. |
| `SplitEffects.SetThreadShows` | frontend/src/splitViewStore.ts:459-527 | Another thread in a pane changes that pane alone; the view goes exactly when it loses its source and shows no thread free to take over. |
| `SplitAnchors.SetThreadAnchors` | frontend/src/splitViewStore.ts:459-527 | A pane that did not show the source leaves source and index as they were; one that did anchors the view at its first free thread, the index gains exactly that entry, and the old entry goes exactly when it named this view. |
| `SplitEffects.CloseShows` | frontend/src/splitViewStore.ts:558-636 | Closing leaves precisely the other panes in order and moves the focus only when its pane went; the view goes exactly when no thread is left to anchor it. |
| `SplitAnchors.CloseAnchors` | frontend/src/splitViewStore.ts:558-636 | Closing a pane that did not show the source leaves source and index as they were; otherwise the old entry goes and the view is anchored and indexed at its first free thread. |
| `SplitEffects.DeletedIsGone` | frontend/src/splitViewStore.ts:687-755 | After a thread is deleted no view shows it, and every view left shows its other panes in their order. |
| `SplitEffects.DeleteShows` | frontend/src/splitViewStore.ts:687-755 | A view goes only with its source, and a view without the thread is untouched. |
| `SplitAnchors.DeleteOneAnchors` | frontend/src/splitViewStore.ts:687-755 | In one view, deleting a thread that is not the source leaves source and index as they were; deleting the source takes its entry and anchors the view at its first free thread. |
| `SplitAnchors.DeleteAnchors` | frontend/src/splitViewStore.ts:687-755 | Over all views, only views of the deleted source are anchored anew, and no other thread loses its entry. |
| `SplitAnchors.DeletedIsUnlisted` | frontend/src/splitViewStore.ts:687-755 | Afterwards the index does not list the thread. |
| `SplitAnchors.DiscardShows` | frontend/src/splitViewStore.ts:446-458 | A discarded view goes with its source's entry, and nothing else changes. |
| `SplitViewStore.Store.OpenForThread` | frontend/src/splitViewStore.ts:411-429 | The store method computes the transition and returns the indexed view. |
| `SplitViewStore.Store.OpenForDrop` | frontend/src/splitViewStore.ts:430-445 | The store method computes the transition and returns a live, indexed view. |
| `SplitViewStore.Store.SetPaneThread` | frontend/src/splitViewStore.ts:459-527 | The store method, with its deletes and assignments on both maps, computes the transition. |
| `SplitViewStore.Store.DropThread` | frontend/src/splitViewStore.ts:528-557 | It computes the transition and answers whether the drop was permitted. |
| `SplitViewStore.Store.ClosePane` | frontend/src/splitViewStore.ts:558-636 | It computes the transition and answers whether there was such a pane. |
| `SplitViewStore.Store.DeleteThread` | frontend/src/splitViewStore.ts:687-755 | The loop over the views as they were computes the fold of the single steps. |
| `SplitViewStore.Store.Discard` | frontend/src/splitViewStore.ts:446-458 | It forgets the view and its source's entry. |
| `SplitViewStore.Store.FocusPane` | frontend/src/splitViewStore.ts:637-648 | It computes the transition. |
| `SplitViewStore.Store.SetNodeRatio` | frontend/src/splitViewStore.ts:649-663 | It computes the transition. |
| `StableSort.StableSortIsUnique` | frontend/src/session-logic.ts:2058-2060 | Two sorted lists with the same elements in the same order within each class are equal: there is one stable sort. |
| `StableSort.SortIsStable` | frontend/src/session-logic.ts:2058-2060 | The sort is sorted, and elements that compare equal keep their order. |
| `StableSort.IsOrdered` | frontend/src/session-logic.ts:209-216 | For a total preorder the pass over neighbours answers whether the whole list is ordered. |
| `StableSort.SortIfNeeded` | frontend/src/session-logic.ts:220-233 | Skipping the sort when neighbours are in order is sorting. |
| `StableSort.MergeByIndex` | frontend/src/session-logic.ts:2062-2096 | The two-index loops compute the merge. |
| `StableSort.MergeIsSort` | frontend/src/session-logic.ts:2062-2096 | Merging two sorted lists is the stable sort of the one followed by the other. |
| `StableSort.SortForgetsOrder` | frontend/src/session-logic.ts:220-233 | When no two elements compare equal, the result does not depend on the input order. |
| `Activities.CompareIsPreorder` | frontend/src/session-logic.ts:2004-2043 | The four-key comparison is a total preorder, and antisymmetric in sign. |
| `ActivityOrder.CompareIff` | frontend/src/session-logic.ts:2004-2043 | One activity comes before another by its sequence number, unnumbered ones first, else by time, else by stage of life, else by id. |
| `ActivityOrder.OrderedFields` | frontend/src/session-logic.ts:2004-2043 | In the ordered list no unnumbered activity follows a numbered one, numbers do not fall, and among equals neither do times, stages and ids. |
| `Activities.DerivePending` | frontend/src/session-logic.ts:359-413 | The fold over the ordered activities with its insertion-ordered map computes the pending list. |
| `Activities.PendingIff` | frontend/src/session-logic.ts:359-413 | A request is pending exactly when the last activity touching it opens it, with that activity's fields; one to an id, in time order. |
| `Activities.PendingApprovalIff` | frontend/src/session-logic.ts:359-413 | So for approvals: opened by a valid request, not followed by a resolve or a stale failure. |
| `Activities.PendingUserInputIff` | frontend/src/session-logic.ts:415-509 | So for user input, where a request without a question that parses opens nothing. |
| `Activities.PendingApprovalMeans` | frontend/src/session-logic.ts:359-413 | In the activities' own terms: an approval is pending exactly when a request with its id, kind, time and detail is followed by no valid request, resolve or stale failure for that id. |
| `Activities.PendingUserInputMeans` | frontend/src/session-logic.ts:415-509 | User input likewise, with the questions of that request that parse. |
| `ActivityOrder.ApprovalLastWord` | frontend/src/session-logic.ts:359-413 | Whatever the arrival order, an approval is pending exactly when, of all activities that concern it, the one that comes after every other by these fields is its request. |
| `ActivityOrder.UserInputLastWord` | frontend/src/session-logic.ts:415-509 | So for user input. |
| `ActivityOrder.LaterResolveCloses` | frontend/src/session-logic.ts:359-413 | However the activities arrive, a resolve numbered above every request for its id closes it. |
| `Activities.PendingForgetsOrder` | frontend/src/session-logic.ts:220-233 | When no two activities compare equal, the pending list does not depend on the order they arrive in. |
| `Timeline.DeriveTimeline` | frontend/src/session-logic.ts:2098-2148 | Three lists, sorted only on demand and merged in two stages, give the one stable sort by time of messages, then plans, then work. |
| `Timeline.TimelineIsStable` | frontend/src/session-logic.ts:2098-2148 | The timeline is sorted, a permutation of all rows, and stable. |
| `Timeline.TimelineRows` | frontend/src/session-logic.ts:2098-2148 | The rows are every plan, every piece of work and every message with something left to show, and no others. |
| `Timeline.TimelineOrder` | frontend/src/session-logic.ts:2045-2148 | Rows are in the order of their times; at one time messages come before plans and plans before work. |
| `WorkLog.CollapseEntries` | frontend/src/session-logic.ts:1165-1178 | Overwriting the last slot computes the collapsed rows. |
| `WorkLog.RowsAreRuns` | frontend/src/session-logic.ts:1165-1178 | The runs behind the rows are contiguous and together all entries in order, and each row is the blend of its run. |
| `WorkLog.RowCarries` | frontend/src/session-logic.ts:1213-1279 | A row says when and what its last entry said, carries the last defined value of every other field, and lists the files of its run once each. |
| `WorkLog.RowTitle` | frontend/src/session-logic.ts:1253-1268 | Where no agent call is involved, the title is the last defined one too. |
| `WorkLogRows.AgentTitle` | frontend/src/session-logic.ts:1253-1268 | An agent's row is titled by the last title of its run that says something, if there is one. |
| `WorkLogRows.TitleKept` | frontend/src/session-logic.ts:1253-1268 | For any run: the row's title survives the next entry exactly when that has none or the same, or when one of them is an agent's and only the row's title says something. |
| `WorkLogRows.RowDetails` | frontend/src/session-logic.ts:1213-1251 | A row's details are those of its run put together from the left, entries without any passed over. |
| `WorkLog.SameCallSameRow` | frontend/src/session-logic.ts:1180-1211 | Neighbouring updates of one tool call share a row until the call completes. |
| `WorkLogRows.NextJoinsIff` | frontend/src/session-logic.ts:1180-1211 | Neighbours share a row exactly when a tool call is running and the next entry continues it: one call's key, or one key or a lost call id with files and commands that agree; otherwise it starts the next row. |
| `WorkLogRows.OtherCallOtherRow` | frontend/src/session-logic.ts:1193-1210 | Two calls side by side stay two rows: keys that differ, the second entry with a call id of its own. |
| `WorkLogRows.LikelySameRowIff` | frontend/src/session-logic.ts:1196-1211 | With one key that is not a call's, neighbours share a row exactly when the files and the command of the whole run agree with the next entry's. |
| `WorkLogRows.NamelessSameRowIff` | frontend/src/session-logic.ts:1196-1211 | An entry without a call id joins a run with another key exactly when the run has one, they look alike, and files and command agree. |
| `WorkLog.OneCallOneRow` | frontend/src/session-logic.ts:1180-1211 | A stretch of updates of one tool call in which only the last may complete it gives one row. |
| `WorkLog.CallKey` | frontend/src/session-logic.ts:1283-1306 | A tool entry with a call id has that id's key, whatever else it says; an entry of another kind has none. |
| `WorkLogRows.NamelessKeyIff` | frontend/src/session-logic.ts:1283-1306 | Without call ids, two entries have one key exactly when command, item type, label, request and the hint of their details coincide. |
| `WorkLog.CollapseStreams` | frontend/src/session-logic.ts:1165-1178 | Further entries change the last row or add rows; every earlier row is final. |
| `WorkLog.SettledSplits` | frontend/src/session-logic.ts:1180-1195 | After a completed tool call or any other entry, what follows is collapsed apart from what came before. |
| `ComposerSegments.KeptIsGreedy` | frontend/src/composer-editor-mentions.ts:285-345 | Kept tokens never overlap, and a collected match is dropped only if it starts inside a kept one. |
| `ComposerSegments.FoundIsKeptOrInside` | frontend/src/composer-editor-mentions.ts:168-345 | Every match found is kept, or starts inside a kept token, or inside a link or an agent mention collected before it. |
| `ComposerWritten.TokenChips` | frontend/src/composer-editor-mentions.ts:285-345 | A text's chips are its kept matches in order, each over its own stretch. |
| `ComposerWritten.KeptAreFree` | frontend/src/composer-editor-mentions.ts:168-283 | No kept agent mention starts inside a link, and no other kept token inside a link or a collected agent mention. |
| `ComposerSegments.ComposeSpells` | frontend/src/composer-editor-mentions.ts:285-404 | The segments' stretches in order spell the prompt back, and no two text segments are adjacent. |
| `ComposerSegments.PlaceholderGetsContext` | frontend/src/composer-editor-mentions.ts:358-404 | The i-th placeholder receives the i-th context, or none when they run out. |
| `ComposerSegments.SplitText` | frontend/src/composer-editor-mentions.ts:285-345 | The cursor loop over sorted matches computes these segments. |
| `ComposerSegments.SplitPrompt` | frontend/src/composer-editor-mentions.ts:358-404 | The scan for placeholders computes these segments. |
| `ComposerCursor.ExpandCollapsedCursor` | frontend/src/composer-logic.ts:74-149 | The loop over segments computes the expanded cursor. |
| `ComposerCursor.CollapseExpandedCursor` | frontend/src/composer-logic.ts:179-269 | The loop over segments computes the collapsed cursor. |
| `ComposerCursor.Galois` | frontend/src/composer-logic.ts:74-269 | collapse(e) <= c exactly when e <= expand(c), for every e the counted lengths reach. |
| `ComposerCursor.RoundTrips` | frontend/src/composer-logic.ts:74-269 | collapse(expand(c)) is c, and expand(collapse(e)) is the nearest cursor place at or after e. |
| `ComposerCursor.ConnectedIff` | frontend/src/composer-logic.ts:74-269 | The connection holds for every place in the prompt exactly when the counted lengths cover the prompt. |
| `ComposerCursor.ReturnsIff` | frontend/src/composer-logic.ts:74-269 | Every collapsed cursor comes back through the prompt exactly when the prompt reaches past the counted length before a last chip, or to the last character of a last text. |
| `ComposerCursor.PromptLaws` | frontend/src/composer-logic.ts:74-269 | Both conditions on the prompt's own segments. |
| `ComposerCursor.LandsIff` | frontend/src/composer-logic.ts:74-149 | Expanding lands at the cursor's place in the text exactly when every chip is counted as long as the text it stands for. |
| `ComposerCursor.HonestPrompt` | frontend/src/composer-logic.ts:74-269 | On prompts whose chips are counted as long as their text, all of these laws hold everywhere. |
| `ComposerWritten.PlainlyIsHonest` | frontend/src/composer-logic.ts:74-269 | If every chip is written plainly, as @path, prefix and name, /command, @alias or the link's own text, every chip is counted as long as its text. |
| `ComposerWritten.PlainPrompt` | frontend/src/composer-logic.ts:74-269 | So on such prompts every cursor law holds, and each cursor expands to its own place in the text. |
| `ComposerCursor.QuotedMentionFallsShort` | frontend/src/composer-logic.ts:85-93 | A prompt with a quoted mention breaks the connection: its quotes are not counted. |
| `ComposerCursor.BareDomainOvershoots` | frontend/src/composer-logic.ts:121-129 | A prompt with a bare domain breaks the round trip: the added scheme is counted. |
| `HistoryBootstrap.BuildBootstrapInput` | frontend/src/historyBootstrap.ts:91-170 | The text never exceeds the budget; included and omitted add up; the transcript is exactly the newest included messages; no longer proper suffix fits; all are included exactly when all fit and so do all but the oldest. |
| `HistoryBootstrap.FramedReads` | frontend/src/historyBootstrap.ts:82-89 | The transcript stands in full below its header, and the request in full below its own, at the very end. |
| `HistoryBootstrap.BodyReads` | frontend/src/historyBootstrap.ts:91-170 | A transcript that leaves messages out says first how many, and ends with the newest blocks. |
| `HistoryBootstrap.JoinShows` | frontend/src/historyBootstrap.ts:91-138 | Each block is there in full, in order, an empty line between one and the next. |
| `HistoryBootstrap.BlockSays` | frontend/src/historyBootstrap.ts:19-80 | A block names who speaks and then says the text and the attachments, or that there is neither. |
| `HistoryBootstrap.IncludeNewest` | frontend/src/historyBootstrap.ts:122-138 | The greedy loop takes a newest-first prefix, all of whose shorter prefixes fit, and stops at the first that does not. |
| `HistoryBootstrap.Finish` | frontend/src/historyBootstrap.ts:140-169 | The second loop returns in its first turn: its trimming step is never reached. |
| `HistoryBootstrap.MisfitStays` | frontend/src/historyBootstrap.ts:122-138 | Once a proper suffix does not fit, no longer proper suffix does. |
| `HistoryBootstrap.ShortOldestIsLost` | frontend/src/historyBootstrap.ts:122-138 | At the budget the whole transcript takes, its oldest message is left out exactly when it is shorter than the line saying so. |
| `HistoryBootstrap.EmptyOldestIsLost` | frontend/src/historyBootstrap.ts:122-138 | Two empty messages fit a budget together, and the builder leaves the older one out. |
| `Keybindings.ResolveFromBindings` | frontend/src/keybindings.ts:456-475 | The backward scan finds the last active binding that matches. |
| `Keybindings.FindEffectiveShortcut` | frontend/src/keybindings.ts:413-445 | The backward scan with claimed chords finds the command's effective shortcut. |
| `KeybindingRules.ResolveIff` | frontend/src/keybindings.ts:456-475 | An event triggers exactly the command of the last rule that applies and matches. |
| `KeybindingRules.EffectiveIff` | frontend/src/keybindings.ts:413-445 | A command's shortcut is that of its last rule whose chord no later applicable rule has taken. |
| `KeybindingRules.MatchesIff` | frontend/src/keybindings.ts:304-357 | A chord matches exactly when all four modifiers are as asked, the general one being command on a Mac and control elsewhere, and the key is typed or its physical key pressed. |
| `KeybindingRules.AliasIs` | frontend/src/keybindings.ts:312-321 | Only letter, digit and bracket keys have a physical key that stands for them. |
| `KeybindingRules.NegationMovesInward` | frontend/src/keybindings.ts:371-384 | A condition means the same with its negations moved to the names by the usual laws. |
| `KeybindingRules.NamesHold` | frontend/src/keybindings.ts:371-384 | A name holds when the context sets it, true and false mean themselves, an unknown name does not hold; a conjunction needs both parts and a disjunction one. |
| `KeybindingRules.FallbacksAre` | frontend/src/keybindings.ts:477-490 | The fallbacks are the built-in rules whose command no entry names. |
| `Keybindings.ConflictKeyIsInjective` | frontend/src/keybindings.ts:394-411 | Two shortcuts share a joined conflict key exactly when they are pressed alike, even where the key is the separator. |
| `Keybindings.FoundIsDispatched` | frontend/src/keybindings.ts:413-475 | If lookup returns a shortcut for a command, with its key as events spell it, the plain event it describes resolves to that command. |
| `Keybindings.OtherSpelling` | frontend/src/keybindings.ts:304-357 | A shortcut matches its own plain event exactly when its key is so spelt: in lower case, and not a key with another name. |
| `Keybindings.DispatchedIsFound` | frontend/src/keybindings.ts:413-475 | Whatever event resolves to a command, with a physical code or without, lookup finds a shortcut for it. |
| `Keybindings.DispatchedIsLabelled` | frontend/src/keybindings.ts:492-610 | With fallbacks too, a command that some event triggers has a label. |
| `Keybindings.LabelIsDispatchedIff` | frontend/src/keybindings.ts:492-610 | The labelled shortcut triggers its command exactly when it comes from the bindings themselves or no active binding takes the fallback's chord. |
| `Keybindings.ShadowedFallback` | frontend/src/keybindings.ts:492-610 | A fallback whose label shows a chord another binding has taken. |
| `TerminalLinks.CollectWrappedLine` | frontend/src/terminal-links.ts:175-220 | The two loops yield the row's line, or nothing for a row out of range. |
| `TerminalLinks.RowsAgree` | frontend/src/terminal-links.ts:175-220 | Every row of a wrapped line yields the same text and segments, and is among them. |
| `TerminalLinks.LineIsBlock` | frontend/src/terminal-links.ts:175-220 | A row's line is the whole stretch of rows that continue one another around it. |
| `TerminalLinks.LineShowsRows` | frontend/src/terminal-links.ts:175-220 | The joined text is the full text of every row but the last, which loses its trailing blanks. |
| `TerminalLinks.ResolveCharacterPosition` | frontend/src/terminal-links.ts:222-240 | The loop finds the first segment reaching past the index, else the last character. |
| `TerminalLinks.LinePositions` | frontend/src/terminal-links.ts:222-240 | Each index resolves to the position showing its own character, and later indices to later positions. |
| `TerminalLinks.CollectMatches` | frontend/src/terminal-links.ts:67-99 | Links read off the matches without their trailing punctuation, none overlapping; a match with text left is a link, unless it overlaps one taken before it or is a path that reads as an address. |
| `TerminalLinks.ExtractLinks` | frontend/src/terminal-links.ts:169-173 | The links are in line order and apart, each the text of a match at its place; every match with text left is a link or overlaps one, an address only another address. |
| `TerminalLinks.ClosingDelimitersGo` | frontend/src/terminal-links.ts:44-61 | A link whose brackets pair up keeps them; punctuation behind it goes, and so does one closing bracket too many. |
| `TerminalLinks.LinkRange` | frontend/src/terminal-links.ts:242-250 | A link's buffer range starts at its own first character and ends at its own last, in reading order. |
| `TerminalLinks.SplitPathRejoins` | frontend/src/terminal-links.ts:140-167 | Splitting off line and column loses nothing. |
| `TerminalLinks.SplitPathTakesNumbers` | frontend/src/terminal-links.ts:140-167 | A single trailing number is a line, two are a line and a column. |
| `DraftThreads.KeyProjectIff` | frontend/src/composerDraftStore.ts:689-708 | A mapping key names its project again exactly when it is a terminal key or the project is not itself named like one. |
| `DraftThreads.KeysDiffer` | frontend/src/composerDraftStore.ts:689-696 | Apart from such names, different projects or surfaces have different keys. |
| `DraftThreads.StepKeepsLive` | frontend/src/composerDraftStore.ts:2719-3094 | No action leaves a mapping that names a missing draft. |
| `DraftThreads.EveryRunLive` | frontend/src/composerDraftStore.ts:2719-3094 | So in every run no project mapping points to a missing draft thread. |
| `DraftEffects.SetShows` | frontend/src/composerDraftStore.ts:2719-2811 | The project's surface names the draft, which keeps a truthy mark and its contents; the one named before goes if nothing else names it; no other draft changes. |
| `DraftEffects.RehomeShows` | frontend/src/composerDraftStore.ts:2840-2924 | A draft that changes is named by its new place alone and keeps a truthy mark; no other draft, mapping or contents change. |
| `DraftEffects.RegisterShows` | frontend/src/composerDraftStore.ts:2812-2839 | A draft that is not there is registered for the project's chat, unmarked and named by no mapping. |
| `DraftEffects.PromoteShows` | frontend/src/composerDraftStore.ts:3034-3057 | A draft that is there is marked with the target, or with its own id when none is given; nothing else changes. |
| `DraftEffects.FinalizeShows` | frontend/src/composerDraftStore.ts:3058-3064 | A draft goes exactly when it carries a mark with a target. |
| `DraftEffects.DiscardShows` | frontend/src/composerDraftStore.ts:3065-3094 | A cleared draft goes with its contents and every mapping that names it, and nothing else does. |
| `DraftThreads.StepDeletes` | frontend/src/composerDraftStore.ts:2719-3094 | A mapping change deletes a draft exactly when it takes away its last name; other actions delete only the draft they are told to; contents go only along with their draft or when the composer erases them. |
| `DraftThreads.StepKeepsPromoting` | frontend/src/composerDraftStore.ts:3034-3057 | While it is there a promoting draft stays promoting, exactly unless it is marked again with an empty target. |
| `DraftThreads.StepKeepsMark` | frontend/src/composerDraftStore.ts:2719-3057 | A marked draft is not offered; while it is there its mark is lost exactly when, marked with an empty target, it is set or moved to a project, and that step offers it at once. |
| `DraftThreads.OfferedAgainIff` | frontend/src/composerDraftStore.ts:2688-3094 | In every run that does not remove it, a marked draft is offered again exactly when it takes such a step. |
| `DraftThreads.NeverOfferedAgain` | frontend/src/composerDraftStore.ts:2688-3094 | So a draft marked with a real target is never offered again in a run that gives it no empty one. |
| `DraftThreads.EmptyTargetIsForgotten` | frontend/src/composerDraftStore.ts:2840-2924 | A run from the empty registry that marks a draft with an empty target, keeps it, and offers it again. |
| `DraftThreads.SetOffers` | frontend/src/composerDraftStore.ts:2719-2811 | Setting a project's draft makes it the offered one unless it is promoting, and changes no other offer. |
| `DraftThreads.RehomeOffers` | frontend/src/composerDraftStore.ts:2840-2924 | Moving a draft makes it offered at its new place and nowhere else. |
| `DraftThreads.ClearWithdraws` | frontend/src/composerDraftStore.ts:2925-2956 | Clearing a surface withdraws its offer and no other. |
| `DraftThreads.ClearAllWithdraws` | frontend/src/composerDraftStore.ts:2957-2998 | Clearing a project withdraws exactly the offers whose key reads as that project. |
| `DraftEffects.ClearByIdWithdraws` | frontend/src/composerDraftStore.ts:2999-3033 | Clearing by id withdraws the one offer whose key it takes out, and only if that names the draft for the project. |
| `DraftThreads.OfferedOnce` | frontend/src/composerDraftStore.ts:2688-2712 | A draft is offered at one place at most, even where two keys coincide. |
| `DraftStore.Store.SetProjectDraftThreadId` | frontend/src/composerDraftStore.ts:2719-2811 | The store method, with its conditional deletes, computes the transition. |
| `DraftStore.Store.SetDraftThreadContext` | frontend/src/composerDraftStore.ts:2840-2924 | It computes the transition, taking out old mappings one by one. |
| `DraftStore.Store.ClearProjectDraftThreads` | frontend/src/composerDraftStore.ts:2957-2998 | Its two loops, over mapping entries and over released drafts, compute the transition. |
| `DraftStore.Store.ClearDraftThread` | frontend/src/composerDraftStore.ts:3065-3094 | It removes the draft, its contents and every mapping naming it. |
| `DraftStore.Store.FinalizePromotedDraftThread` | frontend/src/composerDraftStore.ts:3058-3064 | It clears the draft exactly when it is marked as promoting. |
| `DraftStore.Store.MarkDraftThreadPromoting` | frontend/src/composerDraftStore.ts:3034-3057 | It marks a draft that exists and changes nothing else. |
| `DeepEqual.DeepEqualIff` | frontend/src/composerDraftStore.ts:127-153 | Two values are equal exactly when they are the same without their undefined fields, but for an undefined field with an inherited name that only the first has. |
| `DeepEqual.InheritedNameOneWay` | frontend/src/composerDraftStore.ts:146-148 | Such a field is seen one way round only. |

## Left out
- PaneGeometry.SanitizeKeepsPanes: asks that every pane keeps a terminal; what happens to a row when one is dropped is PaneDrops.
- SplitViews.EveryRun: ids are numbers drawn fresh for the view; migration of stored views from the older left and right shape is not a step.
- TerminalInvariant.RunKeeps: the workspace layout preset is not a step; in runs terminals are opened under ids not yet open, and opening one that is open is TerminalMoves.
- TerminalStore.Store.Apply: the layout preset cannot be applied; equality of states is equality of values, where the source compares the same fields by hand to avoid new objects.
- UniqueNames.NextProjectScriptId: the clock stamp of the last resort is a parameter.
- WorkLog.RowCarries: how two tool details become one, which titles say nothing and how a label loses its status word are parameters, kept in other files of the source.
- WorkLog.CollapseEntries: entries arrive derived; collapsing twice may collapse more and is not claimed.
- Activities.DerivePending: the cache of ordered lists is not kept; which failure details are stale is a parameter; a question is given as parsed or not.
- Timeline.DeriveTimeline: stripping plan blocks from a text is a parameter.
- ComposerSegments.SplitPrompt: whether a mention is a plugin is part of the match; lengths count characters, as code units.
- HistoryBootstrap.BuildBootstrapInput: attachments arrive summed up and embedded selections already cut out; a hole in the message list is not modelled.
- Keybindings.ResolveFromBindings: the table of built-in fallbacks is a parameter. Labels outside a context and the layout of label texts are not modelled.
- TerminalLinks.ExtractLinks: resolving a path against a working directory or home is not modelled.
- DraftThreads.EveryRunLive: options arrive merged with the existing draft; the fields that play no part in the registry are one text. Which of two matching keys a clear by id takes is a parameter. Of the composer's own setters only writing and erasing contents are steps. Preview addresses are not revoked.
- DeepEqual.DeepEqualIff: not-a-number, functions and symbols are not values here, and the field name __proto__, whose inherited value is an object, is not modelled.
- Persistence, storage, transport, React hooks, rendering, settings and routing: plumbing over libraries.
- Trigger detection, token adjacency and range replacement in the composer; stored draft migration and model selection; extraction of tool titles, commands and subagent texts: long case lists with shallow statements.
