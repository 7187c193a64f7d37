# Gym data model

A Dafny model of the data layer of a gym-management CLI, `db/models.py`.
Four SQLAlchemy tables:

- **Trainer**: unique `name`, optional `specialty`.
- **Workout**: belongs to one trainer.
- **Member**: `membership_type` is `Monthly` or `Annual`, optional `age`.
- **Schedule**: books a member onto a workout on a given day.

Each class has the same repository operations:

- `create`: validate, insert and commit, or roll back and re-raise;
- `get_all`: every row in id order;
- `find_by_id`;
- `find_by_name`, or `find_by_name_and_trainer` for workouts: a trimmed, case-insensitive match;
- `delete`: remove the row and its dependents through the `all, delete-orphan` cascades.

The project has three modules:

- **`Text`** (`text.dfy`): the string functions the models call.
  - Python's `str.strip()`, over the exact whitespace set `str.isspace()` uses.
  - SQLite's built-in `lower()`, which folds ASCII A-Z only.
  - Python's `str.lower()`, restricted to ASCII and the Latin-1 capitals.
- **`Models`** (`models.dfy`): the rows and the database as a value (`Db`, four id-keyed maps). It holds:
  - the `@validates` hooks;
  - the storage invariant `Consistent`: every row is validated and keyed by its own id, trainer names are unique, and every foreign key has its parent;
  - what each `create` inserts or raises, in the order the Python code evaluates its steps;
  - what each `delete` removes;
  - the read-only queries.
- **`Session`** (`session.dfy`): the session as a class `Store`.
  - It holds the four tables and a fresh-id counter.
  - Its `create` and `delete` methods change the tables in place and keep `Valid()`.
  - Its name lookups return *some* matching row, as `first()` does without `ORDER BY`. They fold both the stored name and the query the Python way; the filter as the source writes it is kept beside it and compared (see Findings).
  - A commit replaces the state atomically. A failed `create` leaves the store unchanged and returns the error that the source re-raises.

## Model

| member | source | states |
|---|---|---|
| Text.Strip | db/models.py:26-28 | `str.strip()`: the result is never longer, neither starts nor ends with whitespace, and is empty exactly when the input is all whitespace |
| Text.StripPadded | db/models.py:28 | any whitespace around an already stripped text is removed, giving back exactly that text |
| Text.StripIdempotent | db/models.py:34 | stripping twice (once in `create`, once in the hook) is stripping once |
| Text.SqlLower | db/models.py:54 | SQLite `lower()` keeps the length and folds each character by ASCII rules only |
| Text.PyLower | db/models.py:54 | Python `str.lower()` keeps the length and folds each Latin-1 capital |
| Text.CaseVariantIsStripped | db/models.py:54 | a text with the same Python lower-case form as a stored, trimmed name is itself trimmed |
| Text.PyLowerAfterSqlLower | db/models.py:54 | Python's fold covers SQLite's: Python-folding SQLite's lower-case form of a text gives the text's Python lower-case form |
| Text.FoldsAgreeWithoutAccentedCapitals | db/models.py:54 | as modelled (ASCII and Latin-1, where `Text.PyLower` follows Python): on a text without Latin-1 accented capitals, SQLite's `lower()` and Python's `str.lower()` agree |
| Models.TrainerValidateName | db/models.py:24-28 | accepts a name exactly when it is not None and not all whitespace, then yields the non-empty stripped name; otherwise ValueError "Trainer name cannot be empty." |
| Models.WorkoutValidateName | db/models.py:80-84 | the same rule, with "Workout name cannot be empty." |
| Models.MemberValidateName | db/models.py:142-146 | the same rule, with "Member name cannot be empty." |
| Models.ScheduleValidateDay | db/models.py:203-207 | the same rule for `day_of_week`, with "day_of_week cannot be empty." |
| Models.ValidateMembershipType | db/models.py:148-152 | accepts exactly the values whose stripped form is "Monthly" or "Annual" and yields that form; otherwise the ValueError message |
| Models.MembershipTypeAcceptsPadded | db/models.py:148-152 | "Monthly" or "Annual" with any surrounding whitespace is accepted as the bare word |
| Models.MembershipTypeRefusesOthers | db/models.py:150-151 | every value that does not strip to one of the two words (other case, other word) is refused |
| Models.OptionalText | db/models.py:34 | `specialty`/`description`: None when falsy; otherwise the stripped text, which is "" exactly for whitespace-only input |
| Models.CoerceAge | db/models.py:157 | `int(age) if age else None`: None exactly for a missing or zero age, otherwise the age itself |
| Models.NewTrainer | db/models.py:32-40 | the trainer `create` would commit (under the id it is given, with the stripped name and optional specialty; freshness of that id is `Session.Store.CreateTrainer`'s and `Models.NewTrainerKeepsConsistent`'s), succeeding exactly when the name is given, not blank and not already stored; AttributeError on None, ValueError on blank, IntegrityError on the UNIQUE name |
| Models.NewWorkout | db/models.py:87-95 | succeeds exactly for a non-blank name and a stored trainer; AttributeError, ValueError, NOT NULL and foreign-key errors in the source's order |
| Models.NewMember | db/models.py:155-163 | succeeds exactly for a non-blank name, a stripped type in the allowed pair and an age that is missing, zero or within SQLite's signed 64-bit INTEGER range; AttributeError for name, then for type, then the name and type ValueErrors, then the driver's OverflowError for an age it cannot bind; the member stores the stripped name and type and `int(age) if age else None` |
| Models.NewSchedule | db/models.py:210-218 | succeeds exactly for a non-blank day and a stored member and workout; AttributeError, ValueError, then NOT NULL and foreign-key errors for member before workout |
| Models.MembershipCheckIsRedundant | db/models.py:135-137 | the CHECK constraint `membership_type_check` is never what refuses a member: the hook refuses first |
| Models.DuplicateTrainerNameRejected | db/models.py:14 | a second trainer whose name strips to a stored name, with any padding, fails on the UNIQUE constraint |
| Models.NewTrainerKeepsConsistent | db/models.py:32-40 | a committed trainer keeps every storage constraint, the unique name included, and takes an id not in use |
| Models.NewWorkoutKeepsConsistent | db/models.py:87-95 | a committed workout keeps every storage constraint, its trainer exists, and its id is fresh |
| Models.NewMemberKeepsConsistent | db/models.py:155-163 | a committed member keeps every storage constraint, its type in the allowed pair, and its id is fresh |
| Models.NewScheduleKeepsConsistent | db/models.py:210-218 | a committed schedule keeps every storage constraint, its member and workout exist, and its id is fresh |
| Models.Consistent | db/models.py:10-198 | the storage invariant: every row keyed by its own id and validated, trainer names unique, every foreign key with its parent, every member's type in the allowed pair and age bindable |
| Models.WithoutTrainer | db/models.py:56-63 | the tables after `Trainer.delete`: the trainer, its workouts and their schedules removed; an absent id changes nothing |
| Models.WithoutWorkout | db/models.py:114-121 | the tables after `Workout.delete`: the workout and its schedules removed |
| Models.WithoutMember | db/models.py:179-186 | the tables after `Member.delete`: the member and its schedules removed |
| Models.WithoutSchedule | db/models.py:228-235 | the tables after `Schedule.delete`: that schedule removed |
| Models.DeleteTrainerCascade | db/models.py:56-63 | deleting a trainer removes exactly it, its workouts and their schedules; members stay; every remaining reference has its parent; an absent id changes nothing |
| Models.DeleteWorkoutCascade | db/models.py:114-121 | deleting a workout removes exactly it and its schedules; trainers and members stay; the invariant is kept |
| Models.DeleteMemberCascade | db/models.py:179-186 | deleting a member removes exactly it and its schedules; trainers and workouts stay; the invariant is kept |
| Models.DeleteScheduleKeepsOthers | db/models.py:228-235 | deleting a schedule removes that row only and keeps the invariant |
| Models.FindTrainerById | db/models.py:46-48 | `session.get`: the stored row under that key, None exactly when the key is absent |
| Models.FindWorkoutById | db/models.py:101-103 | as for trainers |
| Models.FindMemberById | db/models.py:169-171 | as for trainers |
| Models.FindScheduleById | db/models.py:224-226 | as for trainers |
| Models.DeletedTrainerNotFound | db/models.py:46-63 | after a trainer is deleted, it, its workouts and their schedules are no longer found by id, while members still are |
| Models.NameMatchesAsWritten | db/models.py:54 | the filter as written: SQLite's `lower()` of the stored name equals Python's `str.lower()` of the stripped query |
| Models.NameMatches | db/models.py:50-54 | the filter with Python's fold on both sides, which the lookups use |
| Models.AsWrittenMatchIsCorrectedMatch | db/models.py:54 | every name the filter as written accepts, the Python-folded filter accepts too |
| Models.FiltersAgreeWithoutAccentedCapitals | db/models.py:54 | as modelled (ASCII and Latin-1, where `Text.PyLower` follows Python): for a stored name without Latin-1 accented capitals, both filters accept exactly the same queries |
| Models.AsWrittenMissesExactName | db/models.py:54 | as written, the stored name "Émile" is not found even by the query "Émile"; with Python's fold on both sides it is |
| Models.LowerCaseIsSqlLower | db/models.py:54 | a name already in Python lower case is unchanged by SQLite's `lower()` |
| Models.AsWrittenFindsLowerCaseNames | db/models.py:50-54 | a stored lower-case name (such as "émile") is found by any case variant under Python's lower-casing as modelled (ASCII and Latin-1, where `Text.PyLower` follows Python; such as "Émile"), padded with any whitespace, by the filter as written and the corrected one alike |
| Models.NameMatchIgnoresCaseAndPadding | db/models.py:50-54 | with Python's fold on both sides, any letter-case variant of a stored name under Python's lower-casing (ASCII and Latin-1), padded with any whitespace, matches it |
| Models.TrainerNameMatches | db/models.py:50-54 | the trainers `find_by_name` may return: stored trainers only, none for a falsy name; otherwise every stored trainer whose name matches the query is in it and every trainer in it matches |
| Models.MemberNameMatches | db/models.py:173-177 | the same for members |
| Models.WorkoutNameMatches | db/models.py:105-112 | the same for workouts: stored workouts of the given trainer only, every such workout whose name matches included, and each included one matching |
| Models.BlankNameFindsNothing | db/models.py:50-54 | a truthy name made only of whitespace matches no stored row |
| Models.MatchingTrainerFound | db/models.py:54 | a stored trainer whose name matches a non-empty query is among the matches |
| Models.OthersDoNotMatch | db/models.py:54 | once a trainer is added whose name no other stored name folds like, a query for it matches no other trainer |
| Models.OnlyMatchingTrainer | db/models.py:54 | a trainer that matches a query no other trainer matches is the whole match set |
| Models.AddedTrainerFoundByName | db/models.py:50-54 | a stored trainer is found by any letter-case variant of its name under Python's lower-casing (ASCII and Latin-1) with any padding, and is the only match when no other name folds alike |
| Models.CreatedTrainerFoundByName | db/models.py:32-54 | the same for the trainer `create` has just committed |
| Models.KeysBelow | db/models.py:44 | the ascending id scan: strictly increasing, and holding exactly the keys in range |
| Models.ScannedRowsStored | db/models.py:44 | every row the ascending id scan picks is a stored row |
| Models.StoredRowsScanned | db/models.py:44 | every stored row is picked by the scan, when all ids lie below its bound |
| Models.RowsAtAllKeys | db/models.py:44 | the rows picked by the full scan are exactly the table's rows, and none for an empty table |
| Models.AllTrainers | db/models.py:42-44 | `get_all`: exactly the stored trainers, in strictly ascending id order, empty exactly for an empty table |
| Models.AllWorkouts | db/models.py:97-99 | as for trainers |
| Models.AllMembers | db/models.py:165-167 | as for trainers |
| Models.AllSchedules | db/models.py:220-222 | as for trainers |
| Session.Store.constructor | db/__init__.py:21 | an empty database satisfies the invariant |
| Session.Store.Commit | db/models.py:36 | `session.commit()`: the tables become the given valid state, atomically, and the invariant holds |
| Session.Store.CreateTrainer | db/models.py:32-40 | on failure the store is unchanged and the error is the one `NewTrainer` gives; on success exactly one trainer with a fresh id is added, nothing else changes, and the invariant holds |
| Session.Store.CreateWorkout | db/models.py:87-95 | the same for a workout |
| Session.Store.CreateMember | db/models.py:155-163 | the same for a member, the OverflowError for an unbindable age included |
| Session.Store.CreateSchedule | db/models.py:210-218 | the same for a schedule |
| Session.Store.DeleteTrainer | db/models.py:56-63 | true exactly when the id was stored; the new state is the cascade delete of that trainer; the invariant holds |
| Session.Store.DeleteWorkout | db/models.py:114-121 | the same for a workout and its schedules |
| Session.Store.DeleteMember | db/models.py:179-186 | the same for a member and its schedules |
| Session.Store.DeleteSchedule | db/models.py:228-235 | the same for a schedule alone |
| Session.Store.GetAllTrainers | db/models.py:42-44 | `get_all` on the store: exactly the stored trainers, in strictly ascending id order, empty exactly for an empty table |
| Session.Store.GetAllWorkouts | db/models.py:97-99 | as for trainers |
| Session.Store.GetAllMembers | db/models.py:165-167 | as for trainers |
| Session.Store.GetAllSchedules | db/models.py:220-222 | as for trainers |
| Session.Store.FindTrainerById | db/models.py:46-48 | `find_by_id` on the store: the stored trainer under that key, None exactly when the key is absent |
| Session.Store.FindWorkoutById | db/models.py:101-103 | as for trainers, and a found workout's trainer is stored |
| Session.Store.FindMemberById | db/models.py:169-171 | as for trainers |
| Session.Store.FindScheduleById | db/models.py:224-226 | as for trainers, and a found schedule's member and workout are stored |
| Session.Store.FindTrainerByName | db/models.py:50-54 | None for a falsy name; None exactly when no trainer matches; otherwise one of the matching stored trainers |
| Session.Store.FindMemberByName | db/models.py:173-177 | the same for members |
| Session.Store.FindWorkoutByNameAndTrainer | db/models.py:105-112 | the same for workouts of the given trainer |

## Left out

- The command-line menus in `cli.py`, with their prompts, printing, option lists and fee lookup, are not part of this model. They only read input and forward to these operations.
- Engine and session construction in `db/__init__.py` (`create_all`) are not part of this model. An empty database is `Session.Store.constructor`.
- `prompt` and `safe_int` in `utils/helpers.py` are not part of this model. Ages reach `create` already as integers, and Python's `int()` parsing of strings is not modelled.
- The `__repr__` methods are left out. They only format strings.
- SQLite persistence, connections and transactions are left out. A commit is an atomic replacement of the store's state, and a rollback leaves it as it was.
- Which id SQLite assigns is left out. The store hands out ids from a counter, and the contracts promise only that a new id is not in use.
- Which row `first()` returns among several matches is left out. The name lookups return an arbitrary matching row.
- Models.NewWorkout: the trainer is passed by id, not as a `Trainer` object. A transient object that SQLAlchemy's save-update cascade would insert along with the workout is not modelled. An id that is not stored is refused as a foreign-key error, although SQLite checks foreign keys only when `PRAGMA foreign_keys` is on, and `db/__init__.py` does not turn it on.
- Models.NewSchedule: the member and the workout are passed by id, with the same foreign-key simplification as `NewWorkout`.
- Text.PyLower: Python's lower-casing is modelled for ASCII and Latin-1 capitals only. Other scripts and multi-character lower-case forms are not.
- Text.FoldsAgreeWithoutAccentedCapitals: the agreement is between SQLite's `lower()` and `Text.PyLower`, not the whole of Python's `str.lower()`. The real folds also disagree outside Latin-1: Python lowers "Σ" to "σ" and the Kelvin sign U+212A to "k", while SQLite keeps both.
- Models.FiltersAgreeWithoutAccentedCapitals: the two filters agree as modelled, over `Text.PyLower`. With Python's full lower-casing they also disagree on stored names outside Latin-1: stored "Σ" is missed by the filter as written and found by one folding both sides the Python way.
- Models.AsWrittenFindsLowerCaseNames: covers the case variants `Text.PyLower` knows (ASCII and Latin-1). A variant only Python's full lower-casing relates, such as the query "\u212Aate" (Kelvin sign) for a stored "kate", is found by the source and is not covered.
- NameMatchIgnoresCaseAndPadding: a "case variant" is one under `Text.PyLower`, so ASCII and Latin-1 only; variants in other scripts are not covered.
- AddedTrainerFoundByName: case variants as far as `Text.PyLower` models them (ASCII and Latin-1), as for `NameMatchIgnoresCaseAndPadding`.
- CreatedTrainerFoundByName: case variants as far as `Text.PyLower` models them (ASCII and Latin-1), as for `NameMatchIgnoresCaseAndPadding`.
- Models.TrainerNameMatches: built on the corrected filter `Models.NameMatches`, not on the filter as written, and on `Text.PyLower`, which follows Python's `str.lower()` for ASCII and Latin-1 only. Within that range the two differ only on a stored name holding a Latin-1 accented capital (stored "Émile"): the source finds it by no query, the model finds it by its case variants; a lower-case stored name (stored "émile", query "Émile") is found by both, and on every other stored name they agree (`Models.AsWrittenFindsLowerCaseNames`, `Models.FiltersAgreeWithoutAccentedCapitals`, which compare the two filters as modelled, not the source itself). Outside that range the source and the model differ in both directions: stored "kate" with query "\u212Aate" (the Kelvin sign) or stored "σ" with query "Σ" is found by the source and not by the model, and stored "Σ" with query "Σ" is found by the model and not by the source.
- Models.MemberNameMatches: the corrected filter over `Text.PyLower`, with the same differences as `Models.TrainerNameMatches`: within ASCII and Latin-1 only on a stored accented capital, and in both directions outside that range.
- Models.WorkoutNameMatches: the corrected filter over `Text.PyLower`, with the same differences as `Models.TrainerNameMatches`: within ASCII and Latin-1 only on a stored accented capital, and in both directions outside that range.
- Session.Store.FindTrainerByName: returns from `Models.TrainerNameMatches`, so it has that member's differences: a stored name with a Latin-1 accented capital is found here although the source returns None for it (stored "émile" with query "Émile" is found by both), and outside ASCII and Latin-1, where `Text.PyLower` stops following Python, the two differ in both directions (stored "kate" with query "\u212Aate" found only by the source, stored "Σ" with query "Σ" found only here).
- Session.Store.FindMemberByName: the same differences as `Session.Store.FindTrainerByName`, within and outside ASCII and Latin-1.
- Session.Store.FindWorkoutByNameAndTrainer: the same differences as `Session.Store.FindTrainerByName`, within and outside ASCII and Latin-1.
- Ids are unbounded integers. SQLite's 64-bit limit on row ids is not modelled, since the counter never reaches it in practice.
- Text.IsSpace: whitespace is Python's `str.isspace()` set. Strings are sequences of code points, and there is no byte encoding.
- `delete` raising on commit is not modelled. The cascade keeps every reference valid, so the commit in `delete` cannot violate a constraint in this model.
- A whitespace-only `specialty` or `description` is stored as the empty string, not None. The code tests truthiness before stripping, and `Models.OptionalText` follows the code.

## Findings

| source | as written | input that shows it | evidently intended | confidence | as-written member | corrected member |
|---|---|---|---|---|---|---|
| db/models.py:54, 110, 177 | `func.lower(cls.name) == name.strip().lower()` compares SQLite's ASCII-only `lower()` of the stored name with Python's Unicode `str.lower()` of the query | a trainer stored as "Émile" and looked up as "Émile": the column folds to "Émile", the query to "émile", so nothing is found | Python's case fold on both sides, so that a stored name is always found by its own spelling and its case variants | not executed | Models.AsWrittenMissesExactName | Models.NameMatchIgnoresCaseAndPadding |
