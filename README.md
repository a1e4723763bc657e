# Timetable solve pipeline — a Dafny model

This project models the two halves of the timetable "solve" pipeline.

- The web route `POST /api/solve` (web/src/app/api/solve/route.ts) reads the request
  and the school's data. It builds the solver's input document, calls the solver
  service and checks the reply. It then stores a schedule with one lesson row per
  returned lesson, linking each row back to its teaching assignment by a composite
  key.
- The solver service's `solve` (web/solver/main.py) expands each assignment into one
  class per required period. It builds the CP-SAT model of a 0/1 variable per (class,
  timeslot, room) cell with constraints (1)–(6), runs the search, and reads the
  lessons back off the valuation it found.

The relational store, the HTTP transport and the CP-SAT search are not modelled as
code. The store is a value (`Store.Snapshot`). The solver call and the search are
parameters of `SolveRoute.Post` and `SolverMain.Solve`. `JSON.parse` of a stored string
is a parameter `decode`, where `None` stands for a throw.

Modules, one per file:

| module | file | models |
|---|---|---|
| `Opt`, `Json`, `Strings`, `Seqs` | opt.dfy, json.dfy, strings.dfy, seqs.dfy | optional values, the loose JSON values of the store and `isRecord`, the string operations (decimal rendering, `trim`, `toUpperCase`), filter-map |
| `Availability` | availability.dfy | `parseUnavail` |
| `Parallels` | parallels.dfy | `buildGroupParallels` |
| `Store`, `AssignmentKeys` | store.dfy, assignment_keys.dfy | the rows read, `assignmentKey`, `assignmentMap` |
| `SolveRequest` | solve_request.dfy | the term, the config block, `dayToString`, the `input` document |
| `Reconcile`, `SolveRoute` | reconcile.dfy, solve_route.dfy | the reply check, `lessonRows`, the `POST` handler |
| `SolverTypes`, `SolverPrep` | solver_types.dfy, solver_prep.dfy | the request models, `_maps`, class expansion, the teacher/group class indexes |
| `SolverConstraints`, `SolverExtract`, `SolverMain` | solver_constraints.dfy, solver_extract.dfy, solver_main.dfy | constraints (1)–(6), lesson extraction, `solve` |

The model keeps one behaviour of the code that a reader might not expect.

- **Null-term assignment keys.** One might expect an assignment stored without a term
  to be registered under the request term. The code registers it under
  `"<s>:<t>:<g>:"` (route.ts:92, 101), because `a.term ?? ""` falls back to the empty
  string. It looks lessons up under the request term (route.ts:188-194), and that term is never empty
  (`SolveRequest.RequestTermSpec`). So a lesson whose only matching assignment has no
  term gets a null `assignmentId`. The model keeps this: `AssignmentKeys.LastMatchSpec`
  proves that a resolved id belongs to a row stored under the request term itself.

## Model

| member | source | states |
|---|---|---|
| Availability.ParseItems | web/src/app/api/solve/route.ts:26-35 | the loop pushes, in array order, the entry of every kept element (`FilterMap(ItemToUnavail, items)`) |
| Availability.ParseUnavail | web/src/app/api/solve/route.ts:21-39 | the whole parser equals `ParsedUnavail`: a falsy value, a value that is neither a string nor an array, a string whose parse throws and a string that parses to a non-array give `[]`; an array is walked as above |
| Availability.ParsedUnavailEmpty | web/src/app/api/solve/route.ts:22-37 | the ways to an empty list: falsy input; a truthy value that is neither an array nor a string (a plain object, `true`, a number), whose `String(...)` never parses to an array; a string whose parse throws; a string that parses to a non-array |
| Availability.ParsedUnavailRecords | web/src/app/api/solve/route.ts:24-35 | on an array, the entries correspond in order to exactly the records with a non-empty string `day`; each entry keeps that `day` and the element's slot list |
| Availability.ItemKept | web/src/app/api/solve/route.ts:28-33 | an element is kept if and only if `isRecord(item)` holds and `day` is a non-empty string, and a kept element keeps both |
| Availability.IntegerSlotsExact | web/src/app/api/solve/route.ts:30-32 | `filter(Number.isInteger).map(Number)` keeps exactly the integral entries, in order |
| Parallels.SetAddSpec | web/src/app/api/solve/route.ts:52-53 | `Set.add` holds the old members plus the new one and never duplicates |
| Parallels.AddToSets | web/src/app/api/solve/route.ts:49-54 | one loop pass equals `AddEdge`: it creates missing endpoint sets and links both ways, and the insertion order tracks the keys |
| Parallels.BuildGroupParallels | web/src/app/api/solve/route.ts:48-58 | the returned map has the same keys and lists as `Adjacency(edges)`, the edges processed in order |
| Parallels.AdjacencyKeys | web/src/app/api/solve/route.ts:48-54 | the groups with an entry are exactly the endpoints of some row; a group without rows is absent |
| Parallels.AdjacencyLinks | web/src/app/api/solve/route.ts:52-53 | `h` is listed under `g` if and only if a row links `g` and `h` in either direction |
| Parallels.AdjacencyDistinct | web/src/app/api/solve/route.ts:48-57 | no neighbour list holds a group twice (the lists come from sets) |
| Parallels.AdjacencySymmetric | web/src/app/api/solve/route.ts:52-53 | the adjacency is symmetric |
| Parallels.SelfEdgeListed | web/src/app/api/solve/route.ts:50-53 | a self-row puts the group in its own list, without special-casing |
| Strings.ToUpper | web/src/app/api/solve/route.ts:61-63 | upper-casing keeps the length, changes only lower-case letters, and leaves none |
| SolveRequest.DayToString | web/src/app/api/solve/route.ts:61-63 | the day is the stored day character by character, each ASCII lower-case letter replaced by its upper-case counterpart and every other character kept |
| Strings.TrimSpec | web/src/app/api/solve/route.ts:71 | `trim` keeps a contiguous middle slice, removes only whitespace around it and leaves none at either end |
| Strings.TrimEmptyIff | web/src/app/api/solve/route.ts:71 | a string trims to `""` if and only if it is all whitespace |
| SolveRequest.RequestTermSpec | web/src/app/api/solve/route.ts:71 | the term is never empty; it is `"2025-T1"` when absent or blank, and otherwise the sent term trimmed |
| SolveRoute.TermAssignmentsSelected | web/src/app/api/solve/route.ts:79-81 | the assignment query keeps, in order, exactly the rows of the request term and the rows without a term |
| SolveRoute.TermEdgesSelected | web/src/app/api/solve/route.ts:43-46 | the parallel query keeps, in order, exactly the rows of the request term |
| Strings.NatToStringInjective | web/src/app/api/solve/route.ts:92 | the decimal rendering of a template literal is injective on naturals |
| Strings.IntToString | web/src/app/api/solve/route.ts:92 | an id renders as a non-empty string without `:` that starts with `-` exactly when the id is negative |
| Strings.IntToStringInjective | web/src/app/api/solve/route.ts:92 | the decimal rendering is injective on integers |
| Strings.SplitAtColon | web/src/app/api/solve/route.ts:92 | two strings joined by `:` split back uniquely when neither left part has a colon |
| AssignmentKeys.KeyInjective | web/src/app/api/solve/route.ts:87-92 | two keys are equal if and only if subject, teacher and group agree and the terms agree once `null` reads as `""` |
| AssignmentKeys.BuildAssignmentMap | web/src/app/api/solve/route.ts:94-105 | the loop builds `KeyTable(rows)`, the later row winning on a shared key |
| AssignmentKeys.LastMatchSpec | web/src/app/api/solve/route.ts:194 | the match is none if and only if no row matches; a found id is the last matching row, stored under the request term itself when that term is non-empty |
| AssignmentKeys.LookupIsLastMatch | web/src/app/api/solve/route.ts:94-105 | looking up a lesson's key in the table gives the last assignment matching it |
| SolveRequest.MergeDefaults | web/src/app/api/solve/route.ts:149-159 | with no config, every field takes its default: 1, true, true, `[]`, the environment's limit or 15, no seed, "BLOCK" |
| SolveRequest.MergeCompleteOverrides | web/src/app/api/solve/route.ts:149-159 | a complete config is taken as sent |
| SolveRequest.MergeFieldByField | web/src/app/api/solve/route.ts:150-158 | each field is the caller's value whenever one was sent (`0`, `false`, `[]` and `""` included) and its own default otherwise; the seed passes through |
| SolveRequest.BuildInput | web/src/app/api/solve/route.ts:109-160 | each list of the document has one entry per stored row, and the config is the merged one |
| SolveRequest.BuildInputEntries | web/src/app/api/solve/route.ts:110-148 | each entry copies its row's ids, names and other columns; the day is the stored day upper-cased; a subject has a room type only when it stores a non-empty one; a missing `requiredPeriods` becomes 1; unavailability is the parsed column; a group's partners are its map entry, or `[]` when it has none |
| SolveRoute.InputParallelsLinked | web/src/app/api/solve/route.ts:134-140 | in the document sent, a group's `parallelWithIds` holds a group exactly when a parallel row of the request term links the two, in either direction |
| SolveRoute.BuildInputSameMap | web/src/app/api/solve/route.ts:138 | the document depends on the parallel map only through its entries |
| Reconcile.CheckReply | web/src/app/api/solve/route.ts:167-177 | the reply is rejected if and only if it is null, has no lessons array, or an empty one; the rejection carries `notes ?? []` |
| Reconcile.LessonRows | web/src/app/api/solve/route.ts:187-205 | one row per lesson, in order, under the new schedule, copying the lesson's five ids |
| Reconcile.LessonRowsAssignments | web/src/app/api/solve/route.ts:187-194 | each row's assignment is the last stored assignment matching the lesson under the request term, or null |
| SolveRoute.Post | web/src/app/api/solve/route.ts:65-223 | a body that is the JSON literal `null` gives 500 with the `TypeError`'s message and no writes; a body that is not JSON reads as `{}`; a transport error gives 500 with its message and no writes; a rejected reply gives 400 with its notes and no writes; otherwise one schedule and one row per lesson are written, and the response carries id, count, score and notes |
| SolverPrep.ByIdSpec | web/solver/main.py:80-86 | the lookup's keys are exactly the ids present, each mapped to the last element with that id |
| SolverPrep.ExpandClasses | web/solver/main.py:101-104 | the nested loop appends, per assignment, `max(requiredPeriods, 0)` copies of its class |
| SolverPrep.ExpandedLength | web/solver/main.py:101-104 | there are as many classes as periods asked for |
| SolverPrep.ExpandedLayout | web/solver/main.py:102-104 | assignment `i`'s classes form one block, right after the blocks of the assignments before it |
| SolverPrep.ExpandedFrom | web/solver/main.py:101-104 | every class is the class of an assignment that asks for at least one period |
| SolverPrep.IndexBy | web/solver/main.py:121-123 | the `setdefault(...).append(ci)` loop builds `IndexGroups` (used for teachers and for groups, lines 129-131) |
| SolverPrep.IndexGroupsKeys | web/solver/main.py:121-123 | the keys are exactly the keys of the classes |
| SolverPrep.IndexGroupsListed | web/solver/main.py:121-123 | a listed index belongs to a class with that key |
| SolverPrep.IndexGroupsCovers | web/solver/main.py:129-131 | every class index is listed under its class's key |
| SolverPrep.IndexGroupsAscending | web/solver/main.py:121-123 | every list is strictly ascending, so it holds no index twice |
| SolverConstraints.AddRoomZeros | web/solver/main.py:137-143 | the loop fixes to 0 the cells of `RoomZeros`, in the loop's order |
| SolverConstraints.RoomZerosCells | web/solver/main.py:137-143 | a cell is fixed to 0 by (4) if and only if its room is too small for the group or not of the subject's required type |
| SolverConstraints.ForbiddenSlots | web/solver/main.py:146-152 | a timeslot is forbidden if and only if one of the teacher's records has its day and lists its index |
| SolverConstraints.AddUnavailZeros | web/solver/main.py:146-155 | the loop fixes to 0 the cells of `UnavailZeros` |
| SolverConstraints.UnavailZerosCells | web/solver/main.py:146-155 | a cell is fixed to 0 by (5) if and only if its timeslot is blocked for the class's teacher |
| SolverConstraints.AddPenalty | web/solver/main.py:158-163 | the loop collects the cells of `Penalty`, in order |
| SolverConstraints.PenaltyCells | web/solver/main.py:158-164 | the penalty holds exactly the cells whose timeslot has index 1 |
| SolverConstraints.PenaltyLength | web/solver/main.py:158-164 | it has classes × first periods × rooms entries |
| SolverConstraints.SlotsWhereCells | web/solver/main.py:150-155 | the loop shape over selected timeslots lists exactly their cells |
| SolverConstraints.RoomsWhereCells | web/solver/main.py:140-143 | the loop shape over selected rooms lists exactly their cells |
| SolverExtract.ExtractLessons | web/solver/main.py:173-186 | the triple loop appends, in class, timeslot, room order, the lesson of every cell valued 1 |
| SolverExtract.SlotHitsPlaced | web/solver/main.py:174-186 | a class with exactly one cell at 1 contributes exactly that cell's lesson |
| SolverExtract.ExtractedAt | web/solver/main.py:173-186 | when every class has exactly one cell at 1 (constraint (1)), there is one lesson per class, in class order, carrying the class's ids and its cell's room and timeslot ids |
| SolverMain.TruncToInt | web/solver/main.py:191 | `int(obj)` truncates toward zero |
| SolverMain.Solve | web/solver/main.py:94-193 | a KeyError occurs if and only if a class names an unknown subject, group or teacher; otherwise the model is searched once; a non-OPTIMAL/FEASIBLE status gives no lessons and "No feasible solution"; otherwise the lessons of the valuation, the truncated objective and "classes=N" |
| SolverMain.PlacementRespectsRules | web/solver/main.py:136-155 | under a valuation meeting the model, a class's lesson is in a room big enough for its group, of the required type, at a timeslot the teacher is not unavailable in |
| SolverMain.LessonsDoNotClash | web/solver/main.py:116-134 | under a valuation meeting the model, with distinct timeslot ids, two lessons of one teacher or of one group are at different timeslots |
| SolverMain.SharedKeyApart | web/solver/main.py:124-126 | two classes listed under one key cannot both be at 1 in one timeslot |

## Left out

- The store and the transaction are not modelled as I/O. `prisma` reads become the `Store.Snapshot` value. The schedule id is a parameter.
- `skipDuplicates` of `createMany` is not modelled. The rows are returned as the writes the handler asks for.
- A failure inside the transaction, which would answer 500, is not modelled. Only the solver call can fail here.
- The timeout and the URL of the solver call are not modelled. The call is a parameter that returns a reply or a transport error.
- SolveRequest.EnvTimeLimit: a non-numeric `SOLVER_TIME_LIMIT_SEC` gives `NaN` in the source; the model takes the variable as an optional integer.
- `body.term` of a non-string type is not modelled. That throws in the source and answers 500.
- `config` fields of the wrong JSON type are not modelled. They are passed through unchecked in the source.
- The CP-SAT search is an oracle parameter. The model proves what the lessons satisfy when the valuation meets the model's constraints, not that the search finds one. Its objective is a `real`.
- The minimisation of the penalty sum is not modelled. The model only builds the penalty cells (6).
- The 10-second search limit is not modelled.
- SolveRequest.DayToString: upper-cases ASCII letters only, through `Strings.ToUpper`; the stored days are ASCII weekday names.
- Strings.ToUpper: models `toUpperCase` on ASCII letters only. Full Unicode case mapping is not modelled.
- Request validation by pydantic is not modelled. That includes the mismatch between the two halves: the route sends subjects with `roomType` where the solver reads `requiresRoomType`, and it sends no `term` or `code`.
- SolverConstraints.AddUnavailZeros: visits the forbidden timeslots in ascending order. The source iterates a Python `set`, whose order does not affect the constraints added.
- Constraints (2) and (3) are not modelled as one `model.Add` per timeslot and key. They are modelled by the class indexes and the `NoClash` condition the valuation must meet, because the iteration order of the dictionaries does not affect them.
- The ordering of timeslots by day and index is not modelled. It is the store's; the model takes the rows in the order given.
- The health endpoint (`GET /`) is not modelled. Neither is the text of the rejection message; the model keeps its status and notes.
