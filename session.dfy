/**
 * The SQLAlchemy session over the gym database, as one object that holds the
 * four tables. `create` stages a row and commits it, or rolls back and
 * re-raises; `delete` removes a row with everything that cascades from it and
 * commits; the name lookups return any one matching row, as `first()` does
 * without an `ORDER BY`.
 */
module Session {
  import opened Models

  class Store {
    var trainers: map<Id, Trainer>
    var workouts: map<Id, Workout>
    var members: map<Id, Member>
    var schedules: map<Id, Schedule>
    /** Every id in use lies below this one; the next committed row gets it. */
    var nextId: nat

    /** The committed state, as the `Db` value module Models reasons about. */
    function State(): Db
      reads this
    {
      Db(trainers, workouts, members, schedules)
    }

    /** The storage constraints hold, and no id at or above `nextId` is in use. */
    ghost predicate Valid()
      reads this
    {
      Consistent(State()) && IdsBelow(State(), nextId)
    }

    /** A freshly created database: `create_all` on an empty file. */
    constructor ()
      ensures Valid() && State() == EmptyDb
    {
      trainers, workouts, members, schedules := map[], map[], map[], map[];
      nextId := 1;
    }

    /** `session.commit()`: the tables become `d` and the next free id `n`, both already known to be valid. */
    method Commit(d: Db, n: nat)
      requires Consistent(d) && IdsBelow(d, n)
      modifies this
      ensures Valid() && State() == d && nextId == n
    {
      trainers, workouts, members, schedules := d.trainers, d.workouts, d.members, d.schedules;
      nextId := n;
    }

    /** `Trainer.create`: one new trainer under a fresh id, or the error with nothing changed. */
    method CreateTrainer(name: Option<string>, specialty: Option<string>) returns (r: Result<Trainer>)
      requires Valid()
      modifies this
      ensures Valid()
      ensures r == NewTrainer(old(State()), old(nextId), name, specialty)
      ensures r.Err? ==> unchanged(this)
      ensures r.Ok? ==> r.value.id !in old(trainers) && State() == AddTrainer(old(State()), r.value)
    {
      var db, id := State(), nextId;
      r := NewTrainer(db, id, name, specialty);
      if r.Err? {
        // session.rollback(); raise
        return;
      }
      NewTrainerKeepsConsistent(db, id, name, specialty);
      Commit(AddTrainer(db, r.value), id + 1);
    }

    /** `Workout.create`: one new workout under a fresh id, or the error with nothing changed. */
    method CreateWorkout(name: Option<string>, trainer: Option<Id>, description: Option<string>) returns (r: Result<Workout>)
      requires Valid()
      modifies this
      ensures Valid()
      ensures r == NewWorkout(old(State()), old(nextId), name, trainer, description)
      ensures r.Err? ==> unchanged(this)
      ensures r.Ok? ==> r.value.id !in old(workouts) && State() == AddWorkout(old(State()), r.value)
    {
      var db, id := State(), nextId;
      r := NewWorkout(db, id, name, trainer, description);
      if r.Err? {
        return;
      }
      NewWorkoutKeepsConsistent(db, id, name, trainer, description);
      Commit(AddWorkout(db, r.value), id + 1);
    }

    /** `Member.create`: one new member under a fresh id, or the error with nothing changed. */
    method CreateMember(name: Option<string>, membershipType: Option<string>, age: Option<int>) returns (r: Result<Member>)
      requires Valid()
      modifies this
      ensures Valid()
      ensures r == NewMember(old(State()), old(nextId), name, membershipType, age)
      ensures r.Err? ==> unchanged(this)
      ensures r.Ok? ==> r.value.id !in old(members) && State() == AddMember(old(State()), r.value)
    {
      var db, id := State(), nextId;
      r := NewMember(db, id, name, membershipType, age);
      if r.Err? {
        return;
      }
      NewMemberKeepsConsistent(db, id, name, membershipType, age);
      Commit(AddMember(db, r.value), id + 1);
    }

    /** `Schedule.create`: one new schedule under a fresh id, or the error with nothing changed. */
    method CreateSchedule(member: Option<Id>, workout: Option<Id>, day: Option<string>) returns (r: Result<Schedule>)
      requires Valid()
      modifies this
      ensures Valid()
      ensures r == NewSchedule(old(State()), old(nextId), member, workout, day)
      ensures r.Err? ==> unchanged(this)
      ensures r.Ok? ==> r.value.id !in old(schedules) && State() == AddSchedule(old(State()), r.value)
    {
      var db, id := State(), nextId;
      r := NewSchedule(db, id, member, workout, day);
      if r.Err? {
        return;
      }
      NewScheduleKeepsConsistent(db, id, member, workout, day);
      Commit(AddSchedule(db, r.value), id + 1);
    }

    /**
     * `Trainer.delete`: false and nothing changed for an absent id; otherwise
     * the schedules of the trainer's workouts go first, then the workouts,
     * then the trainer, and the whole is committed at once.
     */
    method DeleteTrainer(id: Id) returns (deleted: bool)
      requires Valid()
      modifies this
      ensures Valid()
      ensures deleted <==> id in old(trainers)
      ensures State() == WithoutTrainer(old(State()), id) && nextId == old(nextId)
    {
      if id !in trainers {
        return false;
      }
      DeleteTrainerCascade(State(), id);
      var ws := WorkoutsOf(workouts, id);
      schedules := schedules - SchedulesOfWorkouts(schedules, ws);
      workouts := workouts - ws;
      trainers := trainers - {id};
      deleted := true;
    }

    /** `Workout.delete`: the workout's schedules go first, then the workout. */
    method DeleteWorkout(id: Id) returns (deleted: bool)
      requires Valid()
      modifies this
      ensures Valid()
      ensures deleted <==> id in old(workouts)
      ensures State() == WithoutWorkout(old(State()), id) && nextId == old(nextId)
    {
      if id !in workouts {
        return false;
      }
      DeleteWorkoutCascade(State(), id);
      schedules := schedules - SchedulesOfWorkouts(schedules, {id});
      workouts := workouts - {id};
      deleted := true;
    }

    /** `Member.delete`: the member's schedules go first, then the member. */
    method DeleteMember(id: Id) returns (deleted: bool)
      requires Valid()
      modifies this
      ensures Valid()
      ensures deleted <==> id in old(members)
      ensures State() == WithoutMember(old(State()), id) && nextId == old(nextId)
    {
      if id !in members {
        return false;
      }
      DeleteMemberCascade(State(), id);
      schedules := schedules - SchedulesOfMember(schedules, id);
      members := members - {id};
      deleted := true;
    }

    /** `Schedule.delete`: nothing depends on a schedule. */
    method DeleteSchedule(id: Id) returns (deleted: bool)
      requires Valid()
      modifies this
      ensures Valid()
      ensures deleted <==> id in old(schedules)
      ensures State() == WithoutSchedule(old(State()), id) && nextId == old(nextId)
    {
      if id !in schedules {
        return false;
      }
      DeleteScheduleKeepsOthers(State(), id);
      schedules := schedules - {id};
      deleted := true;
    }

    /** `Trainer.get_all`: every stored trainer, in ascending id order. */
    function GetAllTrainers(): (r: seq<Trainer>)
      requires Valid()
      reads this
      ensures forall t :: t in r <==> t in trainers.Values
      ensures forall i, j :: 0 <= i < j < |r| ==> r[i].id < r[j].id
      ensures r == [] <==> trainers == map[]
    {
      AllTrainers(State(), nextId)
    }

    /** `Workout.get_all`. */
    function GetAllWorkouts(): (r: seq<Workout>)
      requires Valid()
      reads this
      ensures forall w :: w in r <==> w in workouts.Values
      ensures forall i, j :: 0 <= i < j < |r| ==> r[i].id < r[j].id
      ensures r == [] <==> workouts == map[]
    {
      AllWorkouts(State(), nextId)
    }

    /** `Member.get_all`. */
    function GetAllMembers(): (r: seq<Member>)
      requires Valid()
      reads this
      ensures forall m :: m in r <==> m in members.Values
      ensures forall i, j :: 0 <= i < j < |r| ==> r[i].id < r[j].id
      ensures r == [] <==> members == map[]
    {
      AllMembers(State(), nextId)
    }

    /** `Schedule.get_all`. */
    function GetAllSchedules(): (r: seq<Schedule>)
      requires Valid()
      reads this
      ensures forall s :: s in r <==> s in schedules.Values
      ensures forall i, j :: 0 <= i < j < |r| ==> r[i].id < r[j].id
      ensures r == [] <==> schedules == map[]
    {
      AllSchedules(State(), nextId)
    }

    /** `Trainer.find_by_id`: the trainer under that primary key, or None. */
    function FindTrainerById(id: Id): (r: Option<Trainer>)
      requires Valid()
      reads this
      ensures r.Some? <==> id in trainers
      ensures r.Some? ==> r.value == trainers[id] && r.value.id == id
    {
      Models.FindTrainerById(State(), id)
    }

    /** `Workout.find_by_id`. */
    function FindWorkoutById(id: Id): (r: Option<Workout>)
      requires Valid()
      reads this
      ensures r.Some? <==> id in workouts
      ensures r.Some? ==> r.value == workouts[id] && r.value.id == id && r.value.trainerId in trainers
    {
      Models.FindWorkoutById(State(), id)
    }

    /** `Member.find_by_id`. */
    function FindMemberById(id: Id): (r: Option<Member>)
      requires Valid()
      reads this
      ensures r.Some? <==> id in members
      ensures r.Some? ==> r.value == members[id] && r.value.id == id
    {
      Models.FindMemberById(State(), id)
    }

    /** `Schedule.find_by_id`. */
    function FindScheduleById(id: Id): (r: Option<Schedule>)
      requires Valid()
      reads this
      ensures r.Some? <==> id in schedules
      ensures r.Some? ==> r.value == schedules[id] && r.value.id == id
      ensures r.Some? ==> r.value.memberId in members && r.value.workoutId in workouts
    {
      Models.FindScheduleById(State(), id)
    }

    /** `Trainer.find_by_name`: None for a falsy name or no match, otherwise some matching trainer. */
    method FindTrainerByName(name: Option<string>) returns (r: Option<Trainer>)
      requires Valid()
      ensures !Truthy(name) ==> r == None
      ensures r == None <==> TrainerNameMatches(State(), name) == {}
      ensures r.Some? ==> r.value.id in TrainerNameMatches(State(), name) && r.value == trainers[r.value.id]
    {
      if !Truthy(name) {
        return None;
      }
      if !exists k :: k in trainers && NameMatches(trainers[k].name, name.value) {
        assert TrainerNameMatches(State(), name) == {};
        return None;
      }
      // `first()` without ORDER BY: any of the matching rows
      var k :| k in trainers && NameMatches(trainers[k].name, name.value);
      assert trainers[k].id == k;
      assert k in TrainerNameMatches(State(), name);
      r := Some(trainers[k]);
    }

    /** `Member.find_by_name`: None for a falsy name or no match, otherwise some matching member. */
    method FindMemberByName(name: Option<string>) returns (r: Option<Member>)
      requires Valid()
      ensures !Truthy(name) ==> r == None
      ensures r == None <==> MemberNameMatches(State(), name) == {}
      ensures r.Some? ==> r.value.id in MemberNameMatches(State(), name) && r.value == members[r.value.id]
    {
      if !Truthy(name) {
        return None;
      }
      if !exists k :: k in members && NameMatches(members[k].name, name.value) {
        assert MemberNameMatches(State(), name) == {};
        return None;
      }
      var k :| k in members && NameMatches(members[k].name, name.value);
      assert members[k].id == k;
      assert k in MemberNameMatches(State(), name);
      r := Some(members[k]);
    }

    /** `Workout.find_by_name_and_trainer`: as the name lookups, among that trainer's workouts only. */
    method FindWorkoutByNameAndTrainer(name: Option<string>, trainer: Id) returns (r: Option<Workout>)
      requires Valid()
      ensures !Truthy(name) ==> r == None
      ensures r == None <==> WorkoutNameMatches(State(), name, trainer) == {}
      ensures r.Some? ==> r.value.id in WorkoutNameMatches(State(), name, trainer)
      ensures r.Some? ==> r.value == workouts[r.value.id] && r.value.trainerId == trainer
    {
      if !Truthy(name) {
        return None;
      }
      if !exists k :: k in workouts && NameMatches(workouts[k].name, name.value) && workouts[k].trainerId == trainer {
        assert WorkoutNameMatches(State(), name, trainer) == {};
        return None;
      }
      var k :| k in workouts && NameMatches(workouts[k].name, name.value) && workouts[k].trainerId == trainer;
      assert workouts[k].id == k;
      assert k in WorkoutNameMatches(State(), name, trainer);
      r := Some(workouts[k]);
    }
  }
}
