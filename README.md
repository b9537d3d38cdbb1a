# Kanban board backend and client: a Dafny model

This project models the rule-bearing core of a small kanban application. The backend is an
ASP.NET Core API over Entity Framework Core; the client is a React single-page app.

- **Task positions** (`TasksController`). A new task is appended one past the highest
  Position of its column, in unchecked 32-bit arithmetic. A move decrements the later tasks of the source column, shifts the
  tasks at or after the target slot of the destination column, and places the mover. Both
  filters are evaluated against the stored rows: nothing is saved until the end.
- **Board queries and project creation** (`ProjectsController`). A caller's projects are
  the ones they own. One project comes with its columns in `OrderIndex` order and each
  column's tasks in `Position` order. A new project gets three default columns.
- **Accounts** (`AuthController`, `AuthService`, `SetupController`). Login decides accept
  or reject and builds the token's claims. Registration and admin-created users get the role
  "User" and are refused on a taken name. Admin-created users get one assignment row per
  selected project. The setup call runs once, on an empty system.
- **Client** (`Board.tsx`, `UserManagement.tsx`, `AuthContext.tsx`). The board's
  optimistic drag-and-drop reorder (splice out, splice in) and the request it posts. The
  project checkbox toggle and form reset. The signed-in user read off a decoded token with
  JavaScript `||` fallbacks.

The database is the class `Data.AppDb`. It holds one `seq` per table, rows in insertion
order, and one identity counter per table. Its `Valid()` states key uniqueness and the
declared foreign keys. Controllers that write are methods on it; queries are functions of a
`Tables` snapshot.

`Positions` holds the density predicate ("the positions of a column are exactly
0 .. n-1") and two functions of the Tasks table:

- `MoveRows`, the move as written;
- `IntendedMoveRows`, the move with the destination shift computed on the compacted source
  column.

`BoardSync` relates the client's splices to those two functions.

BCrypt hashing and verification, and jwtDecode, are function-typed parameters. A token is
its list of claims. For what the client sees, the payload names follow the default
outbound claim map of `JwtSecurityTokenHandler`: `nameid`, `unique_name`, `role`.

Where the code's own comments and its behaviour disagree, the model follows the behaviour:

- `GetProjects` filters by owner only, although the comment beside it promises assigned
  projects too.

Two consequences of the code as written are stated as lemmas:

- The client logs in through `AuthController.Login`, whose token has no `sub` and no
  `unique_name` claim.
- A task moved to NewPosition `int.MaxValue` is stored there. The next task created in
  that column gets `int.MinValue`.

## Model

| member | source | states |
|---|---|---|
| `Queries.Where` | backend/Controllers/ProjectsController.cs:34 | every row kept satisfies the filter and the result is no longer than the table |
| `Queries.WhereCounts` | backend/Controllers/ProjectsController.cs:34 | `Where` keeps each row that satisfies the filter exactly as often as the table has it, and drops every other row |
| `Queries.FirstIndex` | backend/Controllers/ProjectsController.cs:44 | `FirstOrDefault`: none exactly when no row matches; otherwise the first matching index |
| `Queries.FirstOrNone` | backend/Controllers/ProjectsController.cs:44 | the element `FirstOrDefault` returns is a matching row of the table; null exactly when none matches |
| `Queries.OrderBy` | backend/Controllers/ProjectsController.cs:42-43 | `OrderBy` returns a permutation of its input, ascending by key |
| `Queries.OrderBySorted` | backend/Controllers/ProjectsController.cs:42-43 | ordering an already ordered list changes nothing |
| `Models.FindClaim` | backend/Controllers/ProjectsController.cs:28 | `FindFirst(type)?.Value`: null exactly when no claim has the type; otherwise the value of such a claim |
| `Data.AppDb.AddUser` | backend/Controllers/AuthController.cs:75-76 | saving a user appends exactly that row with a fresh id; other tables unchanged; the database stays valid |
| `Data.AppDb.AddProject` | backend/Controllers/ProjectsController.cs:69-70 | saving a project appends exactly that row with a fresh id; other tables unchanged |
| `Data.AppDb.AddDefaultColumns` | backend/Controllers/ProjectsController.cs:73-81 | exactly three columns "Todo", "In Progress", "Done" with OrderIndex 0, 1, 2 for the project, with fresh ids, are appended |
| `Data.AppDb.AddTask` | backend/Controllers/TasksController.cs:38-39 | saving a task into an existing column appends exactly that row with a fresh id |
| `Data.AppDb.SaveTasks` | backend/Controllers/TasksController.cs:65 | saving edited task rows that keep their keys and name existing columns replaces the Tasks table and nothing else |
| `Data.AppDb.AddAssignments` | backend/Controllers/AuthController.cs:87-88 | distinct new (ProjectId, UserId) rows for existing projects and users are appended, keeping the composite key unique |
| `Accounts.UsernameTaken` | backend/Controllers/AuthController.cs:64 | `AnyAsync(u => u.Username == name)` holds exactly when some user has the name |
| `Accounts.FindUser` | backend/Controllers/AuthController.cs:39 | the user looked up by name has that name; null exactly when nobody has it |
| `Accounts.Authenticate` | backend/Controllers/AuthController.cs:39-41 | rejected exactly when the name is unknown or the password does not verify against the found user's hash; accepted users carry the name and a verifying hash |
| `Accounts.AuthenticateFindsUser` | backend/Controllers/AuthController.cs:39-41 | with unique usernames, a user whose password verifies is the one logged in |
| `Accounts.AddFreshNameKeepsUnique` | backend/Controllers/AuthController.cs:64-76 | adding a user under a name not yet taken keeps usernames unique |
| `IntText.ParseInt32` | backend/Controllers/ProjectsController.cs:59 | whatever `int.Parse` accepts is a 32-bit integer |
| `IntText.ParseSignedDecimal` | backend/Controllers/ProjectsController.cs:59 | the sign-and-digits part of `int.Parse` yields only 32-bit integers |
| `IntText.NatText` | backend/Controllers/AuthController.cs:48 | the decimal text of a natural number is a non-empty digit string denoting it, with no leading zero |
| `IntText.DecimalText` | backend/Controllers/AuthController.cs:48 | `Id.ToString()`: the digits of the magnitude, after a '-' exactly when the number is negative |
| `IntText.ParseDecimalText` | backend/Controllers/AuthController.cs:48 | `int.Parse(n.ToString()) == n` for every 32-bit `n`: the id claim reads back as the id |
| `IntText.ParseIgnoresWhite` | backend/Controllers/ProjectsController.cs:59 | leading and trailing white space does not change what `int.Parse` reads |
| `IntText.JsParseDecimalText` | frontend/src/components/kanban/Board.tsx:50-51 | `parseInt(String(n)) == n`: an id rendered as text parses back to itself |
| `IntText.JsParseNoDigitIsNaN` | frontend/src/context/AuthContext.tsx:28 | `parseInt` of text starting with neither white space, a sign nor a digit is NaN |
| `IntText.JsParseStopsAtNonDigit` | frontend/src/components/kanban/Board.tsx:50-51 | `parseInt` reads the leading digits and ignores whatever follows the first non-digit |
| `Positions.Count` | backend/Controllers/TasksController.cs:26 | a column's count is at most the table size, and zero exactly when no task names the column |
| `Positions.MaxPosition` | backend/Controllers/TasksController.cs:25-27 | `MaxAsync(t => (int?)t.Position)`: null exactly for an empty column; otherwise a bound reached by some task of the column |
| `IntText.WrapInt32` | backend/Controllers/TasksController.cs:35 | C#'s unchecked `int` arithmetic: a 32-bit value congruent to the exact result modulo 2^32, equal to it when it fits |
| `Positions.NextPosition` | backend/Controllers/TasksController.cs:25-35 | 0 in an empty column. Below `int.MaxValue`, it is exactly one past the column's highest position. With a task at `int.MaxValue`, it wraps to `int.MinValue`, below every task of the column |
| `Positions.MoveToInt32MaxWrapsNextPosition` | backend/Controllers/TasksController.cs:35-63 | after a move to NewPosition `int.MaxValue`, the next task created in that column gets `int.MinValue` |
| `Positions.NextPositionOfDense` | backend/Controllers/TasksController.cs:25-35 | on a dense column of fewer than 2^31 tasks, the appended position equals the column's count |
| `Positions.AppendKeepsDense` | backend/Controllers/TasksController.cs:29-39 | appending at the next position keeps every dense column of fewer than 2^31 tasks dense |
| `Positions.MoveCounts` | backend/Controllers/TasksController.cs:50-63 | a move takes one task out of the source column's count and adds one to the target's; other counts stay |
| `Positions.MoveToOwnSlotIsNoOp` | backend/Controllers/TasksController.cs:50-63 | moving a task to the slot it holds, in a column without shared positions, leaves the table unchanged |
| `Positions.MoverPlaced` | backend/Controllers/TasksController.cs:62-63 | the mover ends with ColumnId = TargetColumnId and Position = NewPosition, unclamped; ids, titles, descriptions and priorities stay |
| `Positions.OtherColumnsUntouched` | backend/Controllers/TasksController.cs:50-59 | tasks of columns other than source and target keep their rows, their count and their density |
| `Positions.MoveKeepsRelativeOrder` | backend/Controllers/TasksController.cs:50-59 | two tasks other than the mover keep their relative order and stay in one column |
| `Positions.WrittenMatchesIntended` | backend/Controllers/TasksController.cs:56-59 | the code as written and the intended move agree on cross-column moves and on same-column moves to a lower or equal slot |
| `Positions.IntendedMoveKeepsDense` | backend/Controllers/TasksController.cs:49-63 | the intended move keeps source and target columns dense for every in-range NewPosition, within and across columns |
| `Positions.WrittenMoveKeepsDense` | backend/Controllers/TasksController.cs:49-63 | the code as written keeps both columns dense on cross-column moves into 0..count and same-column moves to a lower or equal slot |
| `Positions.UpwardMoveCollides` | backend/Controllers/TasksController.cs:56-59 | a same-column move to a higher occupied slot leaves the mover sharing that slot, with the slot below empty |
| `Positions.UpwardMoveBreaksDensity` | backend/Controllers/TasksController.cs:56-59 | every same-column move to a higher existing slot of a dense column leaves it not dense |
| `Positions.UpwardMoveExample` | backend/Controllers/TasksController.cs:56-59 | [a0,b1,c2,d3] with b moved to 2 is saved as a0,b2,c2,d3, which is not dense |
| `Positions.OutOfRangeMoveBreaksDensity` | backend/Controllers/TasksController.cs:57-63 | a negative NewPosition, or one past the end of another column, is stored as given and leaves a gap |
| `TasksController.IndicesWhere` | backend/Controllers/TasksController.cs:50-52 | `Where(...).ToListAsync()`: exactly the matching rows, each once, in table order |
| `TasksController.FindTask` | backend/Controllers/TasksController.cs:46 | `FindAsync(id)`: a row with that key, or null exactly when no row has it |
| `TasksController.CreateTask` | backend/Controllers/TasksController.cs:22-41 | an unknown column saves nothing; otherwise one task is appended with the dto's fields at `NextPosition` of its column, which is the count on a dense column; other dense columns stay dense, and so does its own one |
| `TasksController.ShiftPositions` | backend/Controllers/TasksController.cs:53 | the `foreach` adds the delta to the Position of exactly the listed rows and changes nothing else |
| `TasksController.MoveTask` | backend/Controllers/TasksController.cs:43-67 | NotFound, with nothing changed, exactly for an unknown id; a move into a missing column fails the save and changes nothing; otherwise the Tasks table becomes `MoveRows` of the stored one and nothing else changes |
| `TasksController.TrackedMove` | backend/Controllers/TasksController.cs:46-63 | the two queries on stored rows, the two loops and the placement on tracked rows compute `MoveRows` |
| `TasksController.MovedRowsAreSaved` | backend/Controllers/TasksController.cs:50-63 | rows shifted by the two index lists and the placed mover are exactly `MoveRows` |
| `TasksController.SavedMoveIsValid` | backend/Controllers/TasksController.cs:62-65 | the moved rows keep unique ids and every ColumnId names a column, so the save succeeds |
| `ProjectsController.ColumnViewOf` | backend/Controllers/ProjectsController.cs:43 | a column carries every task of that column and no other, ascending by Position when ordered |
| `ProjectsController.ProjectViewOf` | backend/Controllers/ProjectsController.cs:42-43 | a project carries exactly its columns, ascending by OrderIndex when ordered, each with its tasks |
| `ProjectsController.GetProjects` | backend/Controllers/ProjectsController.cs:26-36 | exactly the projects whose OwnerId is the caller id, each with its columns and tasks; assignments and role are not consulted; an unparsable id claim throws |
| `ProjectsController.GetProjectsWithoutIdClaim` | backend/Controllers/ProjectsController.cs:28 | without a NameIdentifier claim the caller id is 0 and the result is the projects owned by 0 |
| `ProjectsController.GetProjectsOfIssuedToken` | backend/Controllers/ProjectsController.cs:28-35 | a caller with the id claim written at login sees exactly the projects they own |
| `ProjectsController.VisibleProjects` | backend/Controllers/ProjectsController.cs:30 | the projects the user owns or is assigned to, and only those |
| `ProjectsController.AssignedProjectIsHidden` | backend/Controllers/ProjectsController.cs:30-35 | a user assigned to a project they do not own gets an empty list, though the project is visible to them |
| `ProjectsController.GetProject` | backend/Controllers/ProjectsController.cs:38-49 | NotFound exactly when no project has the id; otherwise that project with all its columns by OrderIndex and each column's tasks by Position |
| `ProjectsController.DefaultBoardOf` | backend/Controllers/ProjectsController.cs:73-78 | three fresh columns named and indexed as the defaults, bound to the project and empty, form the default board |
| `ProjectsController.CreateProject` | backend/Controllers/ProjectsController.cs:51-84 | non-admins are refused; an absent or empty id claim is Unauthorized and an unparsable one throws, each with nothing saved; otherwise the project owned by the caller, with the dto's name and description and its default board, is added and GetProject returns it |
| `ProjectsController.AddBoard` | backend/Controllers/ProjectsController.cs:62-81 | the project row and then its three default columns are added, and GetProject returns exactly that board |
| `ProjectsController.NewBoardView` | backend/Controllers/ProjectsController.cs:83 | GetProject of a new project gives its three columns in order, with no tasks |
| `SetupController.InitDatabase` | backend/Controllers/SetupController.cs:27-75 | refused, with nothing changed, exactly when a user exists; otherwise one admin, a default project it owns, three default columns and one "High" welcome task at Position 0 of "Todo" are added; dense columns stay dense |
| `SetupController.SetupTwice` | backend/Controllers/SetupController.cs:30-33 | a second setup is always refused, and the first succeeds exactly on an empty Users table |
| `AuthController.LoginClaims` | backend/Controllers/AuthController.cs:47-50 | the token names the user id as decimal text and carries the user's role |
| `AuthController.Login` | backend/Controllers/AuthController.cs:36-57 | Unauthorized exactly when the name is unknown or the password fails; otherwise a token naming the user's id and role, and the role echoed |
| `AuthController.LoginTokenNamesUser` | backend/Controllers/AuthController.cs:48 | the id claim of an issued token parses back to the id of the user who logged in |
| `AuthController.AssignmentRows` | backend/Controllers/AuthController.cs:81-85 | one row per entry of ProjectIds, in order, each for the new user |
| `AuthController.DistinctRows` | backend/Controllers/AuthController.cs:81-87 | distinct project ids give distinct assignment rows |
| `AuthController.CreateUser` | backend/Controllers/AuthController.cs:60-92 | non-admins are refused and a taken name is BadRequest, both changing nothing; otherwise the user with role "User" is saved first, then one assignment per listed project; a repeated or unknown project id fails the second save and leaves the user without assignments |
| `AuthService.Register` | backend/Services/Implementations/AuthService.cs:24-42 | throws, with nothing changed, exactly when the name is taken; otherwise exactly one user is added, with the name, the hash and role "User" |
| `AuthService.ServiceClaims` | backend/Services/Implementations/AuthService.cs:57-63 | the token names the user id, the username and the role |
| `AuthService.LoginAsync` | backend/Services/Implementations/AuthService.cs:44-72 | null exactly when the name is unknown or the password fails; otherwise a token naming id, username and role |
| `AuthService.RegisteredUserCanLogIn` | backend/Services/Implementations/AuthService.cs:24-72 | a registered user logs in with the same password and is in role "User" |
| `Board.SpliceStart` | frontend/src/components/kanban/Board.tsx:41 | the index `splice` acts on: in range, a negative start counted from the end, clamped to 0..length |
| `Board.RemoveAt` | frontend/src/components/kanban/Board.tsx:41 | `splice(k, 1)`: one element shorter, the elements before k kept and those after it moved down by one |
| `Board.InsertAt` | frontend/src/components/kanban/Board.tsx:43 | `splice(k, 0, x)`: one element longer, x at k, the others kept in order around it |
| `Board.RemoveInserted` | frontend/src/components/kanban/Board.tsx:41-43 | removing at the index just inserted at gives the list back |
| `Board.InsertRemoved` | frontend/src/components/kanban/Board.tsx:41-43 | inserting a removed element back at its index gives the list back |
| `Board.FindColumn` | frontend/src/components/kanban/Board.tsx:35-36 | `findIndex(c => c.id.toString() === droppableId)`: -1 exactly when no column's id text matches; otherwise the first match |
| `Board.ReorderKeepsTaskCount` | frontend/src/components/kanban/Board.tsx:41-43 | the reorder neither adds nor drops a task on the board |
| `Board.ReorderPlacesTask` | frontend/src/components/kanban/Board.tsx:41-43 | the dragged task lands at the (clamped) drop index of the destination list with the destination's ColumnId; columns keep their order |
| `Board.ReorderAcrossColumns` | frontend/src/components/kanban/Board.tsx:41-43 | across columns, the source list loses exactly that task, the destination list is the old one plus the task, and other columns are unchanged |
| `Board.ReorderWithinColumn` | frontend/src/components/kanban/Board.tsx:41-43 | within a column, the new list without the task is the old list without it, and other columns are unchanged |
| `Board.ReorderWithinColumnPermutes` | frontend/src/components/kanban/Board.tsx:38-43 | a move within one column permutes that column's list |
| `Board.MoveRequestOf` | frontend/src/components/kanban/Board.tsx:49-53 | the posted body carries parseInt of the two ids and the unclamped drop index |
| `Board.RequestCarriesIds` | frontend/src/components/kanban/Board.tsx:49-53 | the request carries exactly the task id and column id the board rendered as text |
| `Board.Drop` | frontend/src/components/kanban/Board.tsx:34-45 | a missing source column or an empty slot throws with nothing changed; a missing destination column throws after the task was spliced out of the shared source column; otherwise the columns are reordered and the request is sent |
| `Board.SpliceTask` | frontend/src/components/kanban/Board.tsx:41-43 | the splices and the ColumnId assignment compute `Reorder` |
| `Board.BoardPage.constructor` | frontend/src/components/kanban/Board.tsx:12-19 | no project yet, and the fetch of project 1 sent |
| `Board.BoardPage.OnProjectFetched` | frontend/src/components/kanban/Board.tsx:20 | the fetched project becomes the state, and nothing is sent |
| `Board.BoardPage.OnMoveRequestFailed` | frontend/src/components/kanban/Board.tsx:54-56 | a failed move re-fetches project 1 and leaves the optimistic state in place |
| `Board.BoardPage.OnDragEnd` | frontend/src/components/kanban/Board.tsx:28-58 | no destination or no project changes nothing and sends nothing; otherwise the state becomes the columns `Drop` leaves, and the move is posted exactly when `Drop` reaches the post |
| `BoardSync.OrderedViewShows` | backend/Controllers/ProjectsController.cs:42-43 | the Position-ordered task list of a dense column has at index k the task at Position k |
| `BoardSync.GetProjectShows` | backend/Controllers/ProjectsController.cs:38-49 | every column GetProject returns shows its column when the columns are dense |
| `BoardSync.DraggedRowPosition` | frontend/src/components/kanban/Board.tsx:41 | the task dragged from index i sits at Position i on the server |
| `BoardSync.RemoveFollowsMove` | frontend/src/components/kanban/Board.tsx:41 | after a cross-column drag, the source list shows the server's source column after the intended move |
| `BoardSync.InsertFollowsMove` | frontend/src/components/kanban/Board.tsx:43 | after a cross-column drag, the destination list shows the server's destination column after the intended move |
| `BoardSync.SpliceFollowsMove` | frontend/src/components/kanban/Board.tsx:41-43 | after a drag within a column, the list shows the column after the intended move |
| `BoardSync.ReorderFollowsIntendedMove` | frontend/src/components/kanban/Board.tsx:41-53 | for lists that show their columns and an in-range drop, the optimistic reorder shows exactly what the intended move stores |
| `BoardSync.ReorderFollowsMoveAsWritten` | backend/Controllers/TasksController.cs:49-63 | the same holds for the move as written, on cross-column moves and same-column moves to a lower or equal slot |
| `UserManagement.Toggle` | frontend/src/pages/UserManagement.tsx:30-36 | a present id is removed, every occurrence, with every other id kept as often as before; an absent id is appended |
| `UserManagement.ToggleKeepsOthersInOrder` | frontend/src/pages/UserManagement.tsx:31-35 | the ids other than the toggled one keep their order |
| `UserManagement.ToggleTwiceRestores` | frontend/src/pages/UserManagement.tsx:31-35 | toggling an absent id twice restores the selection |
| `UserManagement.ToggleKeepsDistinct` | frontend/src/pages/UserManagement.tsx:31-35 | a selection without repeats stays without repeats |
| `UserManagement.CreateEmployeeForm.constructor` | frontend/src/pages/UserManagement.tsx:8-13 | the form starts empty, with nothing selected |
| `UserManagement.CreateEmployeeForm.ToggleProject` | frontend/src/pages/UserManagement.tsx:30-36 | the selection becomes its toggle, the text fields stay, and a selection without repeats keeps none |
| `UserManagement.CreateEmployeeForm.OnCreateAnswered` | frontend/src/pages/UserManagement.tsx:41-53 | a successful create clears name, password and selection; a failed one keeps them |
| `AuthContext.FirstTruthy` | frontend/src/context/AuthContext.tsx:26 | `a || b || fallback`: the value of the first truthy key, or the fallback when none is truthy |
| `AuthContext.UserOf` | frontend/src/context/AuthContext.tsx:26-32 | role from the Microsoft role claim, else `role`, else "User"; id `parseInt` of a truthy `sub`, 0 without one; username from `unique_name`, else `sub`, else "User" |
| `AuthContext.UserIdNaN` | frontend/src/context/AuthContext.tsx:28 | a `sub` that does not start with white space, a sign or a digit gives a NaN id |
| `AuthContext.UserIdFromSub` | frontend/src/context/AuthContext.tsx:28 | a `sub` holding decimal text gives that number as the id |
| `AuthContext.LoginPayload` | backend/Controllers/AuthController.cs:47-54 | the login token's payload holds `nameid` and `role` only |
| `AuthContext.DecodeLoginToken` | frontend/src/context/AuthContext.tsx:26-29 | a login token decodes to id 0, username "User" and the user's role |
| `AuthContext.ServicePayload` | backend/Services/Implementations/AuthService.cs:57-63 | the service token's payload holds `nameid`, `unique_name` and `role` |
| `AuthContext.DecodeServiceToken` | frontend/src/context/AuthContext.tsx:26-29 | a service token decodes to id 0, the username and the role |
| `AuthContext.LoginTokenAdmin` | frontend/src/context/AuthContext.tsx:49 | once `user` is read off a login token's payload, `isAdmin` holds exactly when the user's role is "Admin" |
| `AuthContext.AuthProvider.constructor` | frontend/src/context/AuthContext.tsx:18-21 | a stored, non-empty token is decoded into the user; an undecodable one signs out; no token leaves no user |
| `AuthContext.AuthProvider.DecodeAndSetUser` | frontend/src/context/AuthContext.tsx:23-37 | a token that decodes sets the user read off it and stores the token; one that does not signs out |
| `AuthContext.AuthProvider.Login` | frontend/src/context/AuthContext.tsx:39-41 | login has the effect of decodeAndSetUser |
| `AuthContext.AuthProvider.Logout` | frontend/src/context/AuthContext.tsx:43-46 | no user and no stored token |

## Left out

- Entity Framework and SQL Server are left out: change tracking beyond the Tasks rows of MoveTask, transactions, and IDENTITY gaps after a failed insert. Tables are sequences in insertion order; row order where the SQL has no ORDER BY is taken as insertion order.
- SQL collation is left out. Username comparison is exact string equality, whereas SQL Server's default collation is case-insensitive.
- The order of tasks with equal Position under `OrderBy` is not stated; the model's insertion sort is stable, while the database gives no order for ties.
- Concurrency is left out: two creates reading the same maximum, and two moves interleaving. Every operation runs alone.
- BCrypt is left out: the hash is an input, and `verify` is a parameter.
- JWT signing, keys and expiry are left out, and so is the encoding of the token. A token is its claim list.
- The mapping from claims to payload names is the default outbound map of `JwtSecurityTokenHandler`. It is assumed, not derived.
- Identity counters are unbounded integers; an `int` identity overflowing 2^31-1 is not modelled.
- `int.Parse` is modelled for ASCII digits and .NET white space only: no culture-specific signs, no trailing NUL characters.
- JavaScript numbers are unbounded integers here. Precision loss above 2^53 is not modelled, and neither is the exponent notation `String(n)` uses from 1e21.
- Payload values of a decoded token are strings here. A JSON number or boolean, and its truthiness, is not modelled.
- The UI rendering of every page, the loading flags, `alert`, `console.error`, and the project list fetched by UserManagement are left out.
- axios and HTTP transport are left out. A request is recorded in `sent`, and its answer arrives as a method call.
- A fetch that fails leaves the board as it was, and that path is not modelled.
- Aliasing in Board.tsx is captured only where it shows. On a missing destination column, the shared source column has already lost the task. Other mutations of the old project object are not visible.
- `localStorage` is the field `storedToken`. Storage events from other tabs are not modelled.
- The role policy is the `IsInRole(caller, AdminRole)` guard of CreateProject and CreateUser. Authentication of the caller (token validation) is assumed done.
- User.cs is not part of this model. The User entity's fields are those the controllers use.
- `Positions.MoveRows`: positions are unbounded integers here. The `t.Position--` and `t.Position++` of TasksController.cs lines 53 and 59 wrap at `int.MinValue` and `int.MaxValue` in C#, and the model does not wrap. Only a row already at an end of the `int` range differs.
- `TasksController.ShiftPositions`: the `foreach` adds the delta without the 32-bit wrap, for the reason given for `Positions.MoveRows`.
- `TasksController.MoveTask`: it saves `MoveRows`, so it inherits the missing wrap of `t.Position--` and `t.Position++`.
- `TasksController.TrackedMove`: NewPosition, TaskId and TargetColumnId are `int` fields of `MoveTaskDto`. The model takes any integer, and JSON values outside the `int` range are not modelled.
- `TasksController.CreateTask`: density of the target column is promised for columns of fewer than 2^31 tasks. A column cannot hold more, since task ids are positive `int`s, but the model's identity counter is unbounded.
- `Positions.NextPositionOfDense`: it requires fewer than 2^31 tasks in the column, for the reason given for `TasksController.CreateTask`.
- `Positions.AppendKeepsDense`: it requires fewer than 2^31 tasks in the target column, for the same reason.

## Findings

| source | as written | input that shows it | evidently intended | confidence | as-written member | corrected member |
|---|---|---|---|---|---|---|
| backend/Controllers/TasksController.cs:56-59 | the destination shift is selected on the stored rows, before the source column is compacted, and does not leave out the mover | tasks a0, b1, c2, d3 in one column; move b to position 2: saved as a0, b2, c2, d3 | the shift sees the compacted column and skips the mover, giving a0, c1, b2, d3 | not executed | `Positions.UpwardMoveExample` | `Positions.IntendedMoveKeepsDense` |
| backend/Controllers/ProjectsController.cs:30-34 | the query keeps the projects owned by the caller only | project 1 owned by user 1, with user 2 assigned to it; user 2 calls GET /projects and gets an empty list | projects owned by the caller or assigned to the caller | not executed | `ProjectsController.AssignedProjectIsHidden` | `ProjectsController.VisibleProjects` |
