/**
 * The gym's four tables (trainers, workouts, members, schedules) as values:
 * the rows, the `@validates` hooks, what each `create` would insert or raise,
 * what each `delete` removes through its cascades, and the queries.
 * The session that holds these tables and changes them is module Session.
 */
module Models {
  import opened Text

  type Id = int

  datatype Option<+T> = None | Some(value: T)

  /** The storage constraints a commit can violate. */
  datatype Constraint =
    | UniqueTrainerName               // trainers.name UNIQUE
    | NotNull(column: string)         // a relationship left as None
    | ForeignKey(column: string)      // a parent that is not stored
    | MembershipTypeCheck             // membership_type_check

  /** What `create` re-raises after its rollback. */
  datatype Error =
    | AttributeError(argument: string)      // `.strip()` called on None
    | ValueError(message: string)           // a `@validates` hook refused the value
    | IntegrityError(constraint: Constraint) // the commit was refused
    | OverflowError(message: string)        // a value the SQLite driver cannot bind

  datatype Result<+T> = Ok(value: T) | Err(error: Error)

  datatype Trainer = Trainer(id: Id, name: string, specialty: Option<string>)
  datatype Workout = Workout(id: Id, name: string, description: Option<string>, trainerId: Id)
  datatype Member = Member(id: Id, name: string, age: Option<int>, membershipType: string)
  datatype Schedule = Schedule(id: Id, memberId: Id, workoutId: Id, dayOfWeek: string)

  /** The four tables, each keyed by primary key. */
  datatype Db = Db(
    trainers: map<Id, Trainer>,
    workouts: map<Id, Workout>,
    members: map<Id, Member>,
    schedules: map<Id, Schedule>)

  const EmptyDb := Db(map[], map[], map[], map[])

  /** The two values `membership_type` may take, as the CHECK constraint lists them. */
  predicate IsMembershipType(s: string) {
    s == "Monthly" || s == "Annual"
  }

  const TrainerNameEmpty := "Trainer name cannot be empty."
  const WorkoutNameEmpty := "Workout name cannot be empty."
  const MemberNameEmpty := "Member name cannot be empty."
  const MembershipTypeInvalid := "membership_type must be 'Monthly' or 'Annual'."
  const DayEmpty := "day_of_week cannot be empty."
  const IntTooLarge := "Python int too large to convert to SQLite INTEGER"

  /** The range of SQLite's INTEGER storage class: a signed 64-bit integer. */
  predicate IsSqliteInteger(n: int) {
    -0x8000_0000_0000_0000 <= n <= 0x7FFF_FFFF_FFFF_FFFF
  }

  /** Python truthiness of an optional string: not None and not "". */
  predicate Truthy(s: Option<string>) {
    s.Some? && s.value != []
  }

  /** A required text as stored: non-empty and without surrounding whitespace. */
  predicate IsRequiredText(s: string) {
    s != [] && IsStripped(s)
  }

  // ---------------------------------------------------------------------------
  // The @validates hooks

  /** The shared rule of the name and day hooks: refuse None and blank text, keep the stripped text. */
  function ValidateRequired(value: Option<string>, message: string): (r: Result<string>)
    ensures r.Ok? <==> value.Some? && !AllSpace(value.value)
    ensures r.Ok? ==> IsRequiredText(r.value) && r.value == Strip(value.value)
    ensures r.Err? ==> r.error == ValueError(message)
  {
    if !Truthy(value) || Strip(value.value) == [] then Err(ValueError(message)) else Ok(Strip(value.value))
  }

  function TrainerValidateName(value: Option<string>): (r: Result<string>)
    ensures r.Ok? <==> value.Some? && !AllSpace(value.value)
    ensures r.Ok? ==> IsRequiredText(r.value) && r.value == Strip(value.value)
    ensures r.Err? ==> r.error == ValueError(TrainerNameEmpty)
  {
    ValidateRequired(value, TrainerNameEmpty)
  }

  function WorkoutValidateName(value: Option<string>): (r: Result<string>)
    ensures r.Ok? <==> value.Some? && !AllSpace(value.value)
    ensures r.Ok? ==> IsRequiredText(r.value) && r.value == Strip(value.value)
    ensures r.Err? ==> r.error == ValueError(WorkoutNameEmpty)
  {
    ValidateRequired(value, WorkoutNameEmpty)
  }

  function MemberValidateName(value: Option<string>): (r: Result<string>)
    ensures r.Ok? <==> value.Some? && !AllSpace(value.value)
    ensures r.Ok? ==> IsRequiredText(r.value) && r.value == Strip(value.value)
    ensures r.Err? ==> r.error == ValueError(MemberNameEmpty)
  {
    ValidateRequired(value, MemberNameEmpty)
  }

  function ScheduleValidateDay(value: Option<string>): (r: Result<string>)
    ensures r.Ok? <==> value.Some? && !AllSpace(value.value)
    ensures r.Ok? ==> IsRequiredText(r.value) && r.value == Strip(value.value)
    ensures r.Err? ==> r.error == ValueError(DayEmpty)
  {
    ValidateRequired(value, DayEmpty)
  }

  /** Member's `membership_type` hook: the stripped value must be exactly "Monthly" or "Annual". */
  function ValidateMembershipType(value: Option<string>): (r: Result<string>)
    ensures r.Ok? <==> value.Some? && IsMembershipType(Strip(value.value))
    ensures r.Ok? ==> IsMembershipType(r.value) && r.value == Strip(value.value)
    ensures r.Err? ==> r.error == ValueError(MembershipTypeInvalid)
  {
    if !Truthy(value) || !IsMembershipType(Strip(value.value)) then Err(ValueError(MembershipTypeInvalid))
    else Ok(Strip(value.value))
  }

  /** The accepted membership types are exactly the two names, with any whitespace around them. */
  lemma MembershipTypeAcceptsPadded(p: string, t: string, q: string)
    requires AllSpace(p) && AllSpace(q) && IsMembershipType(t)
    ensures ValidateMembershipType(Some(p + t + q)) == Ok(t)
  {
    assert IsStripped(t);
    StripPadded(p, t, q);
  }

  /** A type outside the allowed pair ("Weekly", or a different letter case) is refused. */
  lemma MembershipTypeRefusesOthers(v: string)
    requires Strip(v) != "Monthly" && Strip(v) != "Annual"
    ensures ValidateMembershipType(Some(v)) == Err(ValueError(MembershipTypeInvalid))
  {
    var r := ValidateMembershipType(Some(v));
    assert !IsMembershipType(Strip(v));
    assert r.Err? && r.error == ValueError(MembershipTypeInvalid);
  }

  /** `specialty.strip() if specialty else None`: None and "" give None, anything else its stripped text. */
  function OptionalText(s: Option<string>): (r: Option<string>)
    ensures r.None? <==> !Truthy(s)
    ensures r.Some? ==> IsStripped(r.value) && r.value == Strip(s.value)
    ensures r.Some? ==> (r.value == [] <==> AllSpace(s.value))
  {
    if Truthy(s) then Some(Strip(s.value)) else None
  }

  /** `int(age) if age else None`: an age of 0 is falsy and is stored as None. */
  function CoerceAge(age: Option<int>): (r: Option<int>)
    ensures r.None? <==> age.None? || age.value == 0
    ensures r.Some? ==> r.value == age.value && r.value != 0
  {
    if age.Some? && age.value != 0 then Some(age.value) else None
  }

  /** The age the insert binds is None or fits SQLite's INTEGER; otherwise the driver refuses it. */
  predicate AgeBinds(age: Option<int>) {
    CoerceAge(age).Some? ==> IsSqliteInteger(CoerceAge(age).value)
  }

  // ---------------------------------------------------------------------------
  // The invariant: column constraints, foreign keys and validated fields

  predicate KeyedTrainers(t: map<Id, Trainer>) {
    forall k :: k in t ==> t[k].id == k && IsRequiredText(t[k].name)
  }

  predicate UniqueTrainerNames(t: map<Id, Trainer>) {
    forall a, b :: a in t && b in t && t[a].name == t[b].name ==> a == b
  }

  predicate KeyedWorkouts(db: Db) {
    forall k :: k in db.workouts ==>
      db.workouts[k].id == k && IsRequiredText(db.workouts[k].name) && db.workouts[k].trainerId in db.trainers
  }

  predicate KeyedMembers(m: map<Id, Member>) {
    forall k :: k in m ==>
      m[k].id == k && IsRequiredText(m[k].name) && IsMembershipType(m[k].membershipType)
      && (m[k].age.Some? ==> m[k].age.value != 0 && IsSqliteInteger(m[k].age.value))
  }

  predicate KeyedSchedules(db: Db) {
    forall k :: k in db.schedules ==>
      db.schedules[k].id == k && IsRequiredText(db.schedules[k].dayOfWeek)
      && db.schedules[k].memberId in db.members && db.schedules[k].workoutId in db.workouts
  }

  /** Every row is keyed by its own id and validated; every reference has its parent; trainer names are unique. */
  predicate Consistent(db: Db) {
    && KeyedTrainers(db.trainers)
    && UniqueTrainerNames(db.trainers)
    && KeyedWorkouts(db)
    && KeyedMembers(db.members)
    && KeyedSchedules(db)
  }

  // ---------------------------------------------------------------------------
  // create: what the insert and commit produce, or the error re-raised after rollback

  predicate NameTaken(t: map<Id, Trainer>, name: string) {
    exists k :: k in t && t[k].name == name
  }

  /**
   * `Trainer.create`: `name.strip()` (AttributeError on None), the name hook,
   * then the commit, which the UNIQUE constraint on the stored name refuses
   * when another trainer already has exactly that name.
   */
  function NewTrainer(db: Db, id: Id, name: Option<string>, specialty: Option<string>): (r: Result<Trainer>)
    ensures r.Ok? <==> name.Some? && !AllSpace(name.value) && !NameTaken(db.trainers, Strip(name.value))
    ensures r.Ok? ==> r.value.id == id && IsRequiredText(r.value.name) && r.value.name == Strip(name.value)
    ensures r.Ok? ==> r.value.specialty == OptionalText(specialty)
    ensures name.None? ==> r == Err(AttributeError("name"))
    ensures name.Some? && AllSpace(name.value) ==> r == Err(ValueError(TrainerNameEmpty))
    ensures name.Some? && !AllSpace(name.value) && NameTaken(db.trainers, Strip(name.value))
      ==> r == Err(IntegrityError(UniqueTrainerName))
  {
    if name.None? then Err(AttributeError("name"))
    else
      var specialty' := OptionalText(specialty);
      var n := TrainerValidateName(Some(Strip(name.value)));
      StripIdempotent(name.value);
      if n.Err? then Err(n.error)
      else if NameTaken(db.trainers, n.value) then Err(IntegrityError(UniqueTrainerName))
      else Ok(Trainer(id, n.value, specialty'))
  }

  /**
   * `Workout.create`: `name.strip()`, the name hook, then the commit, refused
   * when the trainer is None (NOT NULL trainer_id) or not stored.
   */
  function NewWorkout(db: Db, id: Id, name: Option<string>, trainer: Option<Id>, description: Option<string>): (r: Result<Workout>)
    ensures r.Ok? <==> name.Some? && !AllSpace(name.value) && trainer.Some? && trainer.value in db.trainers
    ensures r.Ok? ==> r.value.id == id && IsRequiredText(r.value.name) && r.value.name == Strip(name.value)
    ensures r.Ok? ==> r.value.trainerId == trainer.value && r.value.description == OptionalText(description)
    ensures name.None? ==> r == Err(AttributeError("name"))
    ensures name.Some? && AllSpace(name.value) ==> r == Err(ValueError(WorkoutNameEmpty))
    ensures name.Some? && !AllSpace(name.value) && trainer.None?
      ==> r == Err(IntegrityError(NotNull("workouts.trainer_id")))
    ensures name.Some? && !AllSpace(name.value) && trainer.Some? && trainer.value !in db.trainers
      ==> r == Err(IntegrityError(ForeignKey("workouts.trainer_id")))
  {
    if name.None? then Err(AttributeError("name"))
    else
      var description' := OptionalText(description);
      var n := WorkoutValidateName(Some(Strip(name.value)));
      StripIdempotent(name.value);
      if n.Err? then Err(n.error)
      else if trainer.None? then Err(IntegrityError(NotNull("workouts.trainer_id")))
      else if trainer.value !in db.trainers then Err(IntegrityError(ForeignKey("workouts.trainer_id")))
      else Ok(Workout(id, n.value, description', trainer.value))
  }

  /**
   * `Member.create`: `name.strip()` and `membership_type.strip()` (AttributeError
   * on None), `int(age) if age`, the name hook, the membership hook, then the
   * commit: the driver refuses an age outside SQLite's INTEGER range, and the
   * CHECK constraint on membership_type follows.
   */
  function NewMember(db: Db, id: Id, name: Option<string>, membershipType: Option<string>, age: Option<int>): (r: Result<Member>)
    ensures r.Ok? <==>
              && name.Some? && !AllSpace(name.value)
              && membershipType.Some? && IsMembershipType(Strip(membershipType.value))
              && AgeBinds(age)
    ensures r.Ok? ==> r.value.id == id && IsRequiredText(r.value.name) && r.value.name == Strip(name.value)
    ensures r.Ok? ==> r.value.membershipType == Strip(membershipType.value) && r.value.age == CoerceAge(age)
    ensures name.None? ==> r == Err(AttributeError("name"))
    ensures name.Some? && membershipType.None? ==> r == Err(AttributeError("membership_type"))
    ensures name.Some? && membershipType.Some? && AllSpace(name.value) ==> r == Err(ValueError(MemberNameEmpty))
    ensures name.Some? && membershipType.Some? && !AllSpace(name.value) && !IsMembershipType(Strip(membershipType.value))
      ==> r == Err(ValueError(MembershipTypeInvalid))
    ensures name.Some? && membershipType.Some? && !AllSpace(name.value) && IsMembershipType(Strip(membershipType.value))
      && !AgeBinds(age)
      ==> r == Err(OverflowError(IntTooLarge))
  {
    if name.None? then Err(AttributeError("name"))
    else if membershipType.None? then Err(AttributeError("membership_type"))
    else
      var age' := CoerceAge(age);
      var n := MemberValidateName(Some(Strip(name.value)));
      StripIdempotent(name.value);
      StripIdempotent(membershipType.value);
      if n.Err? then Err(n.error)
      else
        var t := ValidateMembershipType(Some(Strip(membershipType.value)));
        if t.Err? then Err(t.error)
        // the driver binds the parameters before SQLite checks any constraint
        else if age'.Some? && !IsSqliteInteger(age'.value) then Err(OverflowError(IntTooLarge))
        else if !IsMembershipType(t.value) then Err(IntegrityError(MembershipTypeCheck))
        else Ok(Member(id, n.value, age', t.value))
  }

  /**
   * `Schedule.create`: `day_of_week.strip()`, the day hook, then the commit,
   * refused when the member or the workout is None or not stored.
   */
  function NewSchedule(db: Db, id: Id, member: Option<Id>, workout: Option<Id>, day: Option<string>): (r: Result<Schedule>)
    ensures r.Ok? <==>
              && day.Some? && !AllSpace(day.value)
              && member.Some? && member.value in db.members
              && workout.Some? && workout.value in db.workouts
    ensures r.Ok? ==> r.value == Schedule(id, member.value, workout.value, Strip(day.value)) && IsRequiredText(r.value.dayOfWeek)
    ensures day.None? ==> r == Err(AttributeError("day_of_week"))
    ensures day.Some? && AllSpace(day.value) ==> r == Err(ValueError(DayEmpty))
    ensures day.Some? && !AllSpace(day.value) && member.None? ==> r == Err(IntegrityError(NotNull("schedules.member_id")))
    ensures day.Some? && !AllSpace(day.value) && member.Some? && workout.None?
      ==> r == Err(IntegrityError(NotNull("schedules.workout_id")))
    ensures day.Some? && !AllSpace(day.value) && member.Some? && workout.Some? && member.value !in db.members
      ==> r == Err(IntegrityError(ForeignKey("schedules.member_id")))
    ensures day.Some? && !AllSpace(day.value) && member.Some? && workout.Some? && member.value in db.members
      && workout.value !in db.workouts
      ==> r == Err(IntegrityError(ForeignKey("schedules.workout_id")))
  {
    if day.None? then Err(AttributeError("day_of_week"))
    else
      var d := ScheduleValidateDay(Some(Strip(day.value)));
      StripIdempotent(day.value);
      if d.Err? then Err(d.error)
      else if member.None? then Err(IntegrityError(NotNull("schedules.member_id")))
      else if workout.None? then Err(IntegrityError(NotNull("schedules.workout_id")))
      else if member.value !in db.members then Err(IntegrityError(ForeignKey("schedules.member_id")))
      else if workout.value !in db.workouts then Err(IntegrityError(ForeignKey("schedules.workout_id")))
      else Ok(Schedule(id, member.value, workout.value, d.value))
  }

  /** The membership CHECK constraint never fires: the hook already refused every other value. */
  lemma MembershipCheckIsRedundant(db: Db, id: Id, name: Option<string>, membershipType: Option<string>, age: Option<int>)
    ensures NewMember(db, id, name, membershipType, age) != Err(IntegrityError(MembershipTypeCheck))
  {
  }

  // ---------------------------------------------------------------------------
  // delete: the row and what cascades from it

  /** The workouts of one trainer: what `Trainer.workouts` (cascade "all, delete-orphan") takes along. */
  function WorkoutsOf(workouts: map<Id, Workout>, trainer: Id): set<Id> {
    set k | k in workouts && workouts[k].trainerId == trainer
  }

  /** The schedules of a set of workouts: what `Workout.schedules` takes along. */
  function SchedulesOfWorkouts(schedules: map<Id, Schedule>, ws: set<Id>): set<Id> {
    set k | k in schedules && schedules[k].workoutId in ws
  }

  /** The schedules of one member: what `Member.schedules` takes along. */
  function SchedulesOfMember(schedules: map<Id, Schedule>, member: Id): set<Id> {
    set k | k in schedules && schedules[k].memberId == member
  }

  /** The tables after `Trainer.delete(id)`: an absent id changes nothing. */
  function WithoutTrainer(db: Db, id: Id): Db {
    if id !in db.trainers then db
    else
      var ws := WorkoutsOf(db.workouts, id);
      Db(db.trainers - {id}, db.workouts - ws, db.members, db.schedules - SchedulesOfWorkouts(db.schedules, ws))
  }

  /** The tables after `Workout.delete(id)`. */
  function WithoutWorkout(db: Db, id: Id): Db {
    if id !in db.workouts then db
    else db.(workouts := db.workouts - {id}, schedules := db.schedules - SchedulesOfWorkouts(db.schedules, {id}))
  }

  /** The tables after `Member.delete(id)`. */
  function WithoutMember(db: Db, id: Id): Db {
    if id !in db.members then db
    else db.(members := db.members - {id}, schedules := db.schedules - SchedulesOfMember(db.schedules, id))
  }

  /** The tables after `Schedule.delete(id)`. */
  function WithoutSchedule(db: Db, id: Id): Db {
    db.(schedules := db.schedules - {id})
  }

  /**
   * Deleting a trainer removes the trainer, exactly the workouts that point to
   * it and exactly the schedules of those workouts; members stay, and the
   * remaining rows still have all their parents.
   */
  lemma DeleteTrainerCascade(db: Db, id: Id)
    requires Consistent(db)
    ensures Consistent(WithoutTrainer(db, id))
    ensures id !in WithoutTrainer(db, id).trainers
    ensures forall k :: k in WithoutTrainer(db, id).trainers <==> k in db.trainers && k != id
    ensures forall k :: k in WithoutTrainer(db, id).workouts <==> k in db.workouts && db.workouts[k].trainerId != id
    ensures forall k :: k in WithoutTrainer(db, id).schedules <==>
      k in db.schedules && db.workouts[db.schedules[k].workoutId].trainerId != id
    ensures WithoutTrainer(db, id).members == db.members
    ensures id !in db.trainers ==> WithoutTrainer(db, id) == db
  {
    var d := WithoutTrainer(db, id);
    if id in db.trainers {
      assert KeyedSchedules(d) by {
        forall k | k in d.schedules
          ensures d.schedules[k].workoutId in d.workouts
        {
          assert db.schedules[k].workoutId !in WorkoutsOf(db.workouts, id);
        }
      }
    }
  }

  /** Deleting a workout removes it and exactly its schedules; trainers and members stay. */
  lemma DeleteWorkoutCascade(db: Db, id: Id)
    requires Consistent(db)
    ensures Consistent(WithoutWorkout(db, id))
    ensures forall k :: k in WithoutWorkout(db, id).workouts <==> k in db.workouts && k != id
    ensures forall k :: k in WithoutWorkout(db, id).schedules <==> k in db.schedules && db.schedules[k].workoutId != id
    ensures WithoutWorkout(db, id).trainers == db.trainers && WithoutWorkout(db, id).members == db.members
  {
  }

  /** Deleting a member removes it and exactly its schedules; trainers and workouts stay. */
  lemma DeleteMemberCascade(db: Db, id: Id)
    requires Consistent(db)
    ensures Consistent(WithoutMember(db, id))
    ensures forall k :: k in WithoutMember(db, id).members <==> k in db.members && k != id
    ensures forall k :: k in WithoutMember(db, id).schedules <==> k in db.schedules && db.schedules[k].memberId != id
    ensures WithoutMember(db, id).trainers == db.trainers && WithoutMember(db, id).workouts == db.workouts
  {
  }

  /** Deleting a schedule removes that row only; nothing depends on a schedule. */
  lemma DeleteScheduleKeepsOthers(db: Db, id: Id)
    requires Consistent(db)
    ensures Consistent(WithoutSchedule(db, id))
    ensures forall k :: k in WithoutSchedule(db, id).schedules <==> k in db.schedules && k != id
    ensures WithoutSchedule(db, id).trainers == db.trainers && WithoutSchedule(db, id).workouts == db.workouts
    ensures WithoutSchedule(db, id).members == db.members
  {
  }

  // ---------------------------------------------------------------------------
  // Fresh ids

  /** Every key of the table lies in [0, n). */
  predicate KeysUnder<T>(m: map<Id, T>, n: int) {
    forall k :: k in m ==> 0 <= k < n
  }

  /** No id at or above n is in use in any table: n is free for the next row. */
  predicate IdsBelow(db: Db, n: int) {
    KeysUnder(db.trainers, n) && KeysUnder(db.workouts, n) && KeysUnder(db.members, n) && KeysUnder(db.schedules, n)
  }

  // ---------------------------------------------------------------------------
  // Committing a created row

  function AddTrainer(db: Db, t: Trainer): Db { db.(trainers := db.trainers[t.id := t]) }
  function AddWorkout(db: Db, w: Workout): Db { db.(workouts := db.workouts[w.id := w]) }
  function AddMember(db: Db, m: Member): Db { db.(members := db.members[m.id := m]) }
  function AddSchedule(db: Db, s: Schedule): Db { db.(schedules := db.schedules[s.id := s]) }

  /** A table whose keys lie below n gains the key n: its keys then lie below n + 1. */
  lemma KeysUnderAdd<T>(m: map<Id, T>, n: int, v: T)
    requires KeysUnder(m, n) && 0 <= n
    ensures n !in m && KeysUnder(m[n := v], n + 1)
  {
  }

  /** Keys below n are below n + 1. */
  lemma KeysUnderRaise<T>(m: map<Id, T>, n: int)
    requires KeysUnder(m, n)
    ensures KeysUnder(m, n + 1)
  {
  }

  /** Adding a validated trainer whose name is not taken, under the first free id, keeps every constraint. */
  lemma AddTrainerKeepsConsistent(db: Db, t: Trainer)
    requires Consistent(db) && IdsBelow(db, t.id) && 0 <= t.id
    requires IsRequiredText(t.name) && !NameTaken(db.trainers, t.name)
    ensures t.id !in db.trainers
    ensures Consistent(AddTrainer(db, t)) && IdsBelow(AddTrainer(db, t), t.id + 1)
  {
    KeysUnderAdd(db.trainers, t.id, t);
    KeysUnderRaise(db.workouts, t.id);
    KeysUnderRaise(db.members, t.id);
    KeysUnderRaise(db.schedules, t.id);
  }

  /** A trainer committed under the first free id keeps every constraint, and the next id is free again. */
  lemma NewTrainerKeepsConsistent(db: Db, id: Id, name: Option<string>, specialty: Option<string>)
    requires Consistent(db) && IdsBelow(db, id) && 0 <= id
    requires NewTrainer(db, id, name, specialty).Ok?
    ensures id !in db.trainers
    ensures Consistent(AddTrainer(db, NewTrainer(db, id, name, specialty).value))
    ensures IdsBelow(AddTrainer(db, NewTrainer(db, id, name, specialty).value), id + 1)
  {
    var t := NewTrainer(db, id, name, specialty).value;
    assert t.id == id && IsRequiredText(t.name) && !NameTaken(db.trainers, t.name);
    AddTrainerKeepsConsistent(db, t);
  }

  /** Adding a validated workout of a stored trainer, under the first free id, keeps every constraint. */
  lemma AddWorkoutKeepsConsistent(db: Db, w: Workout)
    requires Consistent(db) && IdsBelow(db, w.id) && 0 <= w.id
    requires IsRequiredText(w.name) && w.trainerId in db.trainers
    ensures w.id !in db.workouts
    ensures Consistent(AddWorkout(db, w)) && IdsBelow(AddWorkout(db, w), w.id + 1)
  {
    KeysUnderRaise(db.trainers, w.id);
    KeysUnderAdd(db.workouts, w.id, w);
    KeysUnderRaise(db.members, w.id);
    KeysUnderRaise(db.schedules, w.id);
  }

  /** A workout committed under the first free id keeps every constraint, and the next id is free again. */
  lemma NewWorkoutKeepsConsistent(db: Db, id: Id, name: Option<string>, trainer: Option<Id>, description: Option<string>)
    requires Consistent(db) && IdsBelow(db, id) && 0 <= id
    requires NewWorkout(db, id, name, trainer, description).Ok?
    ensures id !in db.workouts
    ensures Consistent(AddWorkout(db, NewWorkout(db, id, name, trainer, description).value))
    ensures IdsBelow(AddWorkout(db, NewWorkout(db, id, name, trainer, description).value), id + 1)
  {
    var w := NewWorkout(db, id, name, trainer, description).value;
    assert w.id == id && IsRequiredText(w.name) && w.trainerId in db.trainers;
    AddWorkoutKeepsConsistent(db, w);
  }

  /** Adding a validated member under the first free id keeps every constraint. */
  lemma AddMemberKeepsConsistent(db: Db, m: Member)
    requires Consistent(db) && IdsBelow(db, m.id) && 0 <= m.id
    requires IsRequiredText(m.name) && IsMembershipType(m.membershipType)
    requires m.age.Some? ==> m.age.value != 0 && IsSqliteInteger(m.age.value)
    ensures m.id !in db.members
    ensures Consistent(AddMember(db, m)) && IdsBelow(AddMember(db, m), m.id + 1)
  {
    KeysUnderRaise(db.trainers, m.id);
    KeysUnderRaise(db.workouts, m.id);
    KeysUnderAdd(db.members, m.id, m);
    KeysUnderRaise(db.schedules, m.id);
  }

  /** A member committed under the first free id keeps every constraint, and the next id is free again. */
  lemma NewMemberKeepsConsistent(db: Db, id: Id, name: Option<string>, membershipType: Option<string>, age: Option<int>)
    requires Consistent(db) && IdsBelow(db, id) && 0 <= id
    requires NewMember(db, id, name, membershipType, age).Ok?
    ensures id !in db.members
    ensures Consistent(AddMember(db, NewMember(db, id, name, membershipType, age).value))
    ensures IdsBelow(AddMember(db, NewMember(db, id, name, membershipType, age).value), id + 1)
  {
    var m := NewMember(db, id, name, membershipType, age).value;
    assert m.id == id && IsRequiredText(m.name) && IsMembershipType(m.membershipType);
    assert m.age.Some? ==> m.age.value != 0 && IsSqliteInteger(m.age.value);
    AddMemberKeepsConsistent(db, m);
  }

  /** Adding a validated schedule of a stored member and workout, under the first free id, keeps every constraint. */
  lemma AddScheduleKeepsConsistent(db: Db, s: Schedule)
    requires Consistent(db) && IdsBelow(db, s.id) && 0 <= s.id
    requires IsRequiredText(s.dayOfWeek) && s.memberId in db.members && s.workoutId in db.workouts
    ensures s.id !in db.schedules
    ensures Consistent(AddSchedule(db, s)) && IdsBelow(AddSchedule(db, s), s.id + 1)
  {
    KeysUnderRaise(db.trainers, s.id);
    KeysUnderRaise(db.workouts, s.id);
    KeysUnderRaise(db.members, s.id);
    KeysUnderAdd(db.schedules, s.id, s);
  }

  /** A schedule committed under the first free id keeps every constraint, and the next id is free again. */
  lemma NewScheduleKeepsConsistent(db: Db, id: Id, member: Option<Id>, workout: Option<Id>, day: Option<string>)
    requires Consistent(db) && IdsBelow(db, id) && 0 <= id
    requires NewSchedule(db, id, member, workout, day).Ok?
    ensures id !in db.schedules
    ensures Consistent(AddSchedule(db, NewSchedule(db, id, member, workout, day).value))
    ensures IdsBelow(AddSchedule(db, NewSchedule(db, id, member, workout, day).value), id + 1)
  {
    var s := NewSchedule(db, id, member, workout, day).value;
    assert s.id == id && IsRequiredText(s.dayOfWeek) && s.memberId in db.members && s.workoutId in db.workouts;
    AddScheduleKeepsConsistent(db, s);
  }

  /**
   * Creating a second trainer whose name strips to one already stored fails on
   * the UNIQUE constraint, whatever the padding; the comparison is exact, so a
   * name differing only in letter case is not a duplicate.
   */
  lemma DuplicateTrainerNameRejected(db: Db, t: Trainer, id: Id, name: string, specialty: Option<string>)
    requires Strip(name) == t.name && t.name != []
    ensures NewTrainer(AddTrainer(db, t), id, Some(name), specialty) == Err(IntegrityError(UniqueTrainerName))
  {
    assert AddTrainer(db, t).trainers[t.id].name == t.name;
    assert NameTaken(AddTrainer(db, t).trainers, Strip(name));
  }

  // ---------------------------------------------------------------------------
  // Queries

  /** `session.get(Trainer, id_)`: the row under that primary key, or None. */
  function FindTrainerById(db: Db, id: Id): (r: Option<Trainer>)
    ensures r.Some? <==> id in db.trainers
    ensures r.Some? ==> r.value == db.trainers[id]
  {
    if id in db.trainers then Some(db.trainers[id]) else None
  }

  /** `session.get(Workout, id_)`. */
  function FindWorkoutById(db: Db, id: Id): (r: Option<Workout>)
    ensures r.Some? <==> id in db.workouts
    ensures r.Some? ==> r.value == db.workouts[id]
  {
    if id in db.workouts then Some(db.workouts[id]) else None
  }

  /** `session.get(Member, id_)`. */
  function FindMemberById(db: Db, id: Id): (r: Option<Member>)
    ensures r.Some? <==> id in db.members
    ensures r.Some? ==> r.value == db.members[id]
  {
    if id in db.members then Some(db.members[id]) else None
  }

  /** `session.get(Schedule, id_)`. */
  function FindScheduleById(db: Db, id: Id): (r: Option<Schedule>)
    ensures r.Some? <==> id in db.schedules
    ensures r.Some? ==> r.value == db.schedules[id]
  {
    if id in db.schedules then Some(db.schedules[id]) else None
  }

  /**
   * After a trainer is deleted, neither it, nor any of its workouts, nor any
   * schedule of those workouts is found by id any more; its members still are.
   */
  lemma DeletedTrainerNotFound(db: Db, id: Id, w: Id, s: Id, m: Id)
    requires Consistent(db) && id in db.trainers
    requires w in db.workouts && db.workouts[w].trainerId == id
    requires s in db.schedules && db.schedules[s].workoutId == w
    requires m in db.members
    ensures FindTrainerById(WithoutTrainer(db, id), id) == None
    ensures FindWorkoutById(WithoutTrainer(db, id), w) == None
    ensures FindScheduleById(WithoutTrainer(db, id), s) == None
    ensures FindMemberById(WithoutTrainer(db, id), m) == Some(db.members[m])
  {
    DeleteTrainerCascade(db, id);
  }

  /**
   * The `filter` of `find_by_name` as written: SQLite's `lower()` of the stored
   * name against Python's `str.lower()` of the stripped query. The two fold
   * different sets of letters.
   */
  predicate NameMatchesAsWritten(stored: string, query: string) {
    SqlLower(stored) == PyLower(Strip(query))
  }

  /**
   * The name filter as the model uses it: the stored name and the stripped
   * query both folded by Python's lower-casing.
   */
  predicate NameMatches(stored: string, query: string) {
    PyLower(stored) == PyLower(Strip(query))
  }

  /** Every match the filter as written finds, the corrected filter finds too. */
  lemma AsWrittenMatchIsCorrectedMatch(stored: string, query: string)
    requires NameMatchesAsWritten(stored, query)
    ensures NameMatches(stored, query)
  {
    PyLowerAfterSqlLower(stored);
    PyLowerIdempotent(Strip(query));
  }

  /**
   * The two filters differ only on stored names holding an accented capital:
   * for every other stored name they accept exactly the same queries.
   */
  lemma FiltersAgreeWithoutAccentedCapitals(stored: string, query: string)
    requires forall i :: 0 <= i < |stored| ==> !IsAccentedCapital(stored[i])
    ensures NameMatchesAsWritten(stored, query) <==> NameMatches(stored, query)
  {
    FoldsAgreeWithoutAccentedCapitals(stored);
    PyLowerIdempotent(Strip(query));
    assert SqlLower(stored) == PyLower(stored);
    if NameMatches(stored, query) {
      assert PyLower(PyLower(stored)) == PyLower(PyLower(Strip(query)));
      PyLowerIdempotent(stored);
    }
  }

  /** As written, a stored name with an accented capital is not found even by its exact spelling. */
  lemma AsWrittenMissesExactName()
    ensures IsRequiredText("\U{C9}mile")
    ensures !NameMatchesAsWritten("\U{C9}mile", "\U{C9}mile")
    ensures NameMatches("\U{C9}mile", "\U{C9}mile")
  {
    assert PyLower("\U{C9}mile")[0] == '\U{E9}';
    assert SqlLower("\U{C9}mile")[0] == '\U{C9}';
  }

  /** A name already in lower case is its own SQLite lower-case form. */
  lemma LowerCaseIsSqlLower(s: string)
    requires PyLower(s) == s
    ensures SqlLower(s) == s
  {
    forall i | 0 <= i < |s|
      ensures SqlLower(s)[i] == s[i]
    {
      assert PyLowerChar(s[i]) == s[i];
    }
  }

  /**
   * A stored name already in lower case ("émile") is found, as written and
   * corrected alike, by any case variant of it ("Émile"), with any padding.
   */
  lemma AsWrittenFindsLowerCaseNames(stored: string, p: string, v: string, q: string)
    requires IsRequiredText(stored) && PyLower(stored) == stored
    requires AllSpace(p) && AllSpace(q) && PyLower(v) == stored
    ensures NameMatchesAsWritten(stored, p + v + q)
    ensures NameMatches(stored, p + v + q)
  {
    LowerCaseIsSqlLower(stored);
    CaseVariantIsStripped(stored, v);
    StripPadded(p, v, q);
  }

  /**
   * With the filter folded alike on both sides, a query that spells a stored
   * name in any letter case and with any surrounding whitespace matches it.
   */
  lemma {:induction false} NameMatchIgnoresCaseAndPadding(stored: string, p: string, v: string, q: string)
    requires IsRequiredText(stored) && AllSpace(p) && AllSpace(q)
    requires PyLower(v) == PyLower(stored)
    ensures NameMatches(stored, p + v + q)
  {
    CaseVariantIsStripped(stored, v);
    StripPadded(p, v, q);
  }

  /** The trainers `Trainer.find_by_name` may return: none for a falsy name. */
  function TrainerNameMatches(db: Db, name: Option<string>): (ks: set<Id>)
    ensures ks <= db.trainers.Keys
    ensures !Truthy(name) ==> ks == {}
    ensures Truthy(name) ==> forall k :: k in db.trainers && NameMatches(db.trainers[k].name, name.value) ==> k in ks
    ensures Truthy(name) ==> forall k :: k in ks ==> NameMatches(db.trainers[k].name, name.value)
  {
    if !Truthy(name) then {} else set k | k in db.trainers && NameMatches(db.trainers[k].name, name.value)
  }

  /** The members `Member.find_by_name` may return: none for a falsy name. */
  function MemberNameMatches(db: Db, name: Option<string>): (ks: set<Id>)
    ensures ks <= db.members.Keys
    ensures !Truthy(name) ==> ks == {}
    ensures Truthy(name) ==> forall k :: k in db.members && NameMatches(db.members[k].name, name.value) ==> k in ks
    ensures Truthy(name) ==> forall k :: k in ks ==> NameMatches(db.members[k].name, name.value)
  {
    if !Truthy(name) then {} else set k | k in db.members && NameMatches(db.members[k].name, name.value)
  }

  /** The workouts `Workout.find_by_name_and_trainer` may return: same name rule, and that trainer. */
  function WorkoutNameMatches(db: Db, name: Option<string>, trainer: Id): (ks: set<Id>)
    ensures ks <= db.workouts.Keys
    ensures !Truthy(name) ==> ks == {}
    ensures forall k :: k in ks ==> db.workouts[k].trainerId == trainer
    ensures Truthy(name) ==> forall k ::
      (k in db.workouts && db.workouts[k].trainerId == trainer && NameMatches(db.workouts[k].name, name.value)) ==> k in ks
    ensures Truthy(name) ==> forall k :: k in ks ==> NameMatches(db.workouts[k].name, name.value)
  {
    if !Truthy(name) then {}
    else set k | k in db.workouts && NameMatches(db.workouts[k].name, name.value) && db.workouts[k].trainerId == trainer
  }

  /** A name made only of whitespace is truthy, yet finds nothing: no stored name is blank. */
  lemma BlankNameFindsNothing(db: Db, name: string, trainer: Id)
    requires Consistent(db) && AllSpace(name)
    ensures TrainerNameMatches(db, Some(name)) == {}
    ensures MemberNameMatches(db, Some(name)) == {}
    ensures WorkoutNameMatches(db, Some(name), trainer) == {}
  {
    assert PyLower(Strip(name)) == [];
    forall k | k in db.trainers ensures !NameMatches(db.trainers[k].name, name) {
      assert |PyLower(db.trainers[k].name)| > 0;
    }
    forall k | k in db.members ensures !NameMatches(db.members[k].name, name) {
      assert |PyLower(db.members[k].name)| > 0;
    }
    forall k | k in db.workouts ensures !NameMatches(db.workouts[k].name, name) {
      assert |PyLower(db.workouts[k].name)| > 0;
    }
  }

  /** A trainer whose name matches a non-empty query is among the matches. */
  lemma MatchingTrainerFound(d: Db, query: string, id: Id)
    requires query != [] && id in d.trainers && NameMatches(d.trainers[id].name, query)
    ensures id in TrainerNameMatches(d, Some(query))
  {
  }

  /** A trainer that matches a query no other trainer matches is the whole result of the filter. */
  lemma OnlyMatchingTrainer(d: Db, query: string, id: Id)
    requires query != [] && id in d.trainers && NameMatches(d.trainers[id].name, query)
    requires forall k :: k in d.trainers && k != id ==> !NameMatches(d.trainers[k].name, query)
    ensures TrainerNameMatches(d, Some(query)) == {id}
  {
    var found := TrainerNameMatches(d, Some(query));
    assert id in found;
    forall k | k in found
      ensures k == id
    {
      assert NameMatches(d.trainers[k].name, query);
    }
  }

  /** When no stored name folds like the added trainer's, a query matching the added name matches no other trainer. */
  lemma OthersDoNotMatch(db: Db, t: Trainer, query: string)
    requires PyLower(Strip(query)) == PyLower(t.name)
    requires forall k :: k in db.trainers && k != t.id ==> PyLower(db.trainers[k].name) != PyLower(t.name)
    ensures forall k :: k in AddTrainer(db, t).trainers && k != t.id ==> !NameMatches(AddTrainer(db, t).trainers[k].name, query)
  {
    var d := AddTrainer(db, t);
    forall k | k in d.trainers && k != t.id
      ensures !NameMatches(d.trainers[k].name, query)
    {
      assert d.trainers[k] == db.trainers[k];
    }
  }

  /**
   * A stored trainer is found by its name in any letter case and with any
   * padding; when no other trainer's name folds to the same text, it is the
   * only match.
   */
  lemma AddedTrainerFoundByName(db: Db, t: Trainer, p: string, v: string, q: string)
    requires IsRequiredText(t.name) && AllSpace(p) && AllSpace(q) && PyLower(v) == PyLower(t.name)
    ensures t.id in TrainerNameMatches(AddTrainer(db, t), Some(p + v + q))
    ensures (forall k :: k in db.trainers && k != t.id ==> PyLower(db.trainers[k].name) != PyLower(t.name))
      ==> TrainerNameMatches(AddTrainer(db, t), Some(p + v + q)) == {t.id}
  {
    var d, query := AddTrainer(db, t), p + v + q;
    NameMatchIgnoresCaseAndPadding(t.name, p, v, q);
    assert |query| >= |v| == |t.name| > 0;
    assert d.trainers[t.id] == t;
    MatchingTrainerFound(d, query, t.id);
    if forall k :: k in db.trainers && k != t.id ==> PyLower(db.trainers[k].name) != PyLower(t.name) {
      OthersDoNotMatch(db, t, query);
      OnlyMatchingTrainer(d, query, t.id);
    }
  }

  /**
   * A trainer just created is found by name, in any letter case and with any
   * padding; when no other trainer's name folds to the same text, it is the
   * only match, so `first()` returns exactly it.
   */
  lemma CreatedTrainerFoundByName(db: Db, id: Id, name: Option<string>, specialty: Option<string>, p: string, v: string, q: string)
    requires NewTrainer(db, id, name, specialty).Ok?
    requires AllSpace(p) && AllSpace(q) && PyLower(v) == PyLower(Strip(name.value))
    ensures id in TrainerNameMatches(AddTrainer(db, NewTrainer(db, id, name, specialty).value), Some(p + v + q))
    ensures (forall k :: k in db.trainers ==> PyLower(db.trainers[k].name) != PyLower(Strip(name.value)))
      ==> TrainerNameMatches(AddTrainer(db, NewTrainer(db, id, name, specialty).value), Some(p + v + q)) == {id}
  {
    AddedTrainerFoundByName(db, NewTrainer(db, id, name, specialty).value, p, v, q);
  }

  // ---------------------------------------------------------------------------
  // get_all: every row, in ascending id order

  /** The keys of `m` in [0, n), ascending: an `ORDER BY id` scan of a table whose ids all lie below n. */
  function KeysBelow<T>(m: map<Id, T>, n: nat): (ks: seq<Id>)
    ensures forall i, j :: 0 <= i < j < |ks| ==> ks[i] < ks[j]
    ensures forall k :: k in ks <==> k in m && 0 <= k < n
  {
    if n == 0 then []
    else
      var below := KeysBelow(m, n - 1);
      assert forall i :: 0 <= i < |below| ==> below[i] in below;
      below + (if n - 1 in m then [n - 1] else [])
  }

  function RowsAt<T>(m: map<Id, T>, ks: seq<Id>): seq<T>
    requires forall i :: 0 <= i < |ks| ==> ks[i] in m
  {
    seq(|ks|, i requires 0 <= i < |ks| => m[ks[i]])
  }

  /** The scan of an empty table yields no keys. */
  lemma {:induction false} EmptyTableScansNothing<T>(m: map<Id, T>, n: nat)
    requires m == map[]
    ensures KeysBelow(m, n) == []
  {
    if n > 0 {
      EmptyTableScansNothing(m, n - 1);
    }
  }

  /** Every row the full ascending key scan picks is a row of the table. */
  lemma ScannedRowsStored<T>(m: map<Id, T>, n: nat)
    ensures forall i :: 0 <= i < |KeysBelow(m, n)| ==> KeysBelow(m, n)[i] in m
    ensures forall x :: x in RowsAt(m, KeysBelow(m, n)) ==> x in m.Values
  {
    var ks := KeysBelow(m, n);
    assert forall i :: 0 <= i < |ks| ==> ks[i] in ks;
    var rows := RowsAt(m, ks);
    forall i | 0 <= i < |rows| ensures rows[i] in m.Values {
      assert ks[i] in m;
    }
  }

  /** Every row of a table whose keys lie below n is picked by the scan. */
  lemma StoredRowsScanned<T>(m: map<Id, T>, n: nat)
    requires KeysUnder(m, n)
    requires forall i :: 0 <= i < |KeysBelow(m, n)| ==> KeysBelow(m, n)[i] in m
    ensures forall x :: x in m.Values ==> x in RowsAt(m, KeysBelow(m, n))
  {
    var ks := KeysBelow(m, n);
    var rows := RowsAt(m, ks);
    forall x | x in m.Values
      ensures x in rows
    {
      var k :| k in m && m[k] == x;
      var i :| 0 <= i < |ks| && ks[i] == k;
      assert rows[i] == x;
    }
  }

  /** Rows picked by the full ascending key scan hold exactly the table's rows. */
  lemma {:induction false} RowsAtAllKeys<T>(m: map<Id, T>, n: nat)
    requires KeysUnder(m, n)
    ensures forall i :: 0 <= i < |KeysBelow(m, n)| ==> KeysBelow(m, n)[i] in m
    ensures forall x :: x in RowsAt(m, KeysBelow(m, n)) <==> x in m.Values
    ensures RowsAt(m, KeysBelow(m, n)) == [] <==> m == map[]
  {
    ScannedRowsStored(m, n);
    StoredRowsScanned(m, n);
    if m != map[] {
      var k :| k in m;
      assert m[k] in m.Values;
    } else {
      EmptyTableScansNothing(m, n);
    }
  }

  /** `Trainer.get_all`: `query(Trainer).order_by(Trainer.id).all()`. */
  function AllTrainers(db: Db, n: nat): (r: seq<Trainer>)
    requires KeyedTrainers(db.trainers) && KeysUnder(db.trainers, n)
    ensures forall t :: t in r <==> t in db.trainers.Values
    ensures forall i, j :: 0 <= i < j < |r| ==> r[i].id < r[j].id
    ensures r == [] <==> db.trainers == map[]
  {
    RowsAtAllKeys(db.trainers, n);
    RowsAt(db.trainers, KeysBelow(db.trainers, n))
  }

  /** `Workout.get_all`. */
  function AllWorkouts(db: Db, n: nat): (r: seq<Workout>)
    requires KeyedWorkouts(db) && KeysUnder(db.workouts, n)
    ensures forall w :: w in r <==> w in db.workouts.Values
    ensures forall i, j :: 0 <= i < j < |r| ==> r[i].id < r[j].id
    ensures r == [] <==> db.workouts == map[]
  {
    RowsAtAllKeys(db.workouts, n);
    RowsAt(db.workouts, KeysBelow(db.workouts, n))
  }

  /** `Member.get_all`. */
  function AllMembers(db: Db, n: nat): (r: seq<Member>)
    requires KeyedMembers(db.members) && KeysUnder(db.members, n)
    ensures forall m :: m in r <==> m in db.members.Values
    ensures forall i, j :: 0 <= i < j < |r| ==> r[i].id < r[j].id
    ensures r == [] <==> db.members == map[]
  {
    RowsAtAllKeys(db.members, n);
    RowsAt(db.members, KeysBelow(db.members, n))
  }

  /** `Schedule.get_all`. */
  function AllSchedules(db: Db, n: nat): (r: seq<Schedule>)
    requires KeyedSchedules(db) && KeysUnder(db.schedules, n)
    ensures forall s :: s in r <==> s in db.schedules.Values
    ensures forall i, j :: 0 <= i < j < |r| ==> r[i].id < r[j].id
    ensures r == [] <==> db.schedules == map[]
  {
    RowsAtAllKeys(db.schedules, n);
    RowsAt(db.schedules, KeysBelow(db.schedules, n))
  }
}
