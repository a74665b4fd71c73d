/** The timetable representation: one lesson per (class, day, lesson slot),
    the catalog it is drawn from, the room-compatibility table shared by the
    mutation and repair operators, and the `Schedule` object whose grid the
    genetic operators update in place. */
module Timetable {

  /** One lesson slot: a `(subject, teacher, room)` triple. */
  datatype Lesson = Lesson(subject: string, teacher: string, room: string)

  /** `grid[class][day][slot]`. */
  type Grid = seq<seq<seq<Lesson>>>

  /** The dimensions and vocabularies a schedule is built from. */
  datatype Catalog = Catalog(classes: nat, teachers: seq<string>, subjects: seq<string>,
                             rooms: seq<string>, days: nat, lessons: nat)

  // Subjects with a dedicated room, and their rooms.
  const PhysicalEducation: string := "Physical Education"
  const Choreography: string := "Choreography"
  const Music: string := "Music"
  const Gym: string := "Gym"
  const DanceRoom: string := "Dance Room"
  const MusicRoom: string := "Music Room"

  /** Subjects that must be taught in one of the general classrooms. */
  const AcademicSubjects: seq<string> := ["Math", "English", "History", "Geography"]
  const Classrooms: seq<string> := ["Classroom 1", "Classroom 2", "Classroom 3"]

  predicate IsFixedRoomSubject(subject: string) {
    subject == PhysicalEducation || subject == Choreography || subject == Music
  }

  /** The room the compatibility table requires of a subject, and whether the
      room is acceptable: fixed-room subjects need their own room, academic
      subjects a general classroom, anything else any room. */
  predicate RoomCompatible(subject: string, room: string) {
    && (subject == PhysicalEducation ==> room == Gym)
    && (subject == Choreography ==> room == DanceRoom)
    && (subject == Music ==> room == MusicRoom)
    && (subject in AcademicSubjects ==> room in Classrooms)
  }

  /** The rooms the mutation and repair operators may pick for `subject`
      (the list `random.choice` draws from; a one-element list where the
      room is fixed). */
  function RoomChoices(subject: string, rooms: seq<string>): (choices: seq<string>)
    ensures forall r :: r in choices && !(subject in AcademicSubjects || IsFixedRoomSubject(subject)) ==> r in rooms
    ensures forall r :: r in choices ==> RoomCompatible(subject, r)
    ensures subject in AcademicSubjects || IsFixedRoomSubject(subject) ==> choices != []
  {
    if subject == PhysicalEducation then [Gym]
    else if subject == Choreography then [DanceRoom]
    else if subject == Music then [MusicRoom]
    else if subject in AcademicSubjects then Classrooms
    else rooms
  }

  /** Every class has `days` days of `lessons` slots each. */
  ghost predicate Shaped(g: Grid, classes: nat, days: nat, lessons: nat) {
    && |g| == classes
    && (forall c :: 0 <= c < |g| ==> |g[c]| == days)
    && (forall c, d :: 0 <= c < |g| && 0 <= d < |g[c]| ==> |g[c][d]| == lessons)
  }

  /** Every cell's subject, teacher and room come from the catalog. */
  ghost predicate Drawn(g: Grid, cat: Catalog) {
    forall c, d, l :: 0 <= c < |g| && 0 <= d < |g[c]| && 0 <= l < |g[c][d]| ==>
      g[c][d][l].subject in cat.subjects && g[c][d][l].teacher in cat.teachers && g[c][d][l].room in cat.rooms
  }

  /** The three `random.choice` draws of one cell, as indices into the catalog lists. */
  datatype Pick = Pick(subject: nat, teacher: nat, room: nat)

  /** The picks of every cell of a `cat`-shaped grid index into the catalog lists. */
  ghost predicate PicksFit(cat: Catalog, pick: (nat, nat, nat) -> Pick) {
    forall c: nat, d: nat, l: nat :: c < cat.classes && d < cat.days && l < cat.lessons ==>
      pick(c, d, l).subject < |cat.subjects| && pick(c, d, l).teacher < |cat.teachers| && pick(c, d, l).room < |cat.rooms|
  }

  /** One day of class `c`: a freshly drawn lesson in each slot. */
  function InitializeDay(cat: Catalog, pick: (nat, nat, nat) -> Pick, c: nat, d: nat): (day: seq<Lesson>)
    requires PicksFit(cat, pick) && c < cat.classes && d < cat.days
    ensures |day| == cat.lessons
    ensures forall l :: 0 <= l < |day| ==>
      day[l].subject in cat.subjects && day[l].teacher in cat.teachers && day[l].room in cat.rooms
  {
    seq(cat.lessons, (l: int) requires 0 <= l < cat.lessons =>
      Lesson(cat.subjects[pick(c, d, l).subject],
             cat.teachers[pick(c, d, l).teacher],
             cat.rooms[pick(c, d, l).room]))
  }

  /** A random grid: each cell drawn independently from the catalog. */
  function InitializeSchedule(cat: Catalog, pick: (nat, nat, nat) -> Pick): (g: Grid)
    requires PicksFit(cat, pick)
    ensures Shaped(g, cat.classes, cat.days, cat.lessons)
    ensures Drawn(g, cat)
  {
    seq(cat.classes, (c: int) requires 0 <= c < cat.classes =>
      seq(cat.days, (d: int) requires 0 <= d < cat.days => InitializeDay(cat, pick, c, d)))
  }

  /** A candidate timetable. The catalog is fixed at construction; the grid
      is the only state, replaced by crossover and updated cell by cell by
      mutation. */
  class Schedule {
    const classes: nat
    const teachers: seq<string>
    const subjects: seq<string>
    const rooms: seq<string>
    const days: nat
    const lessons: nat
    var grid: Grid

    function Vocabulary(): Catalog {
      Catalog(classes, teachers, subjects, rooms, days, lessons)
    }

    /** The grid keeps the catalog's dimensions. */
    ghost predicate Valid()
      reads this
    {
      Shaped(grid, classes, days, lessons)
    }

    /** A schedule of five days of five lessons unless told otherwise,
        drawn at random from its catalog with `pick`. */
    constructor (classes: nat, teachers: seq<string>, subjects: seq<string>, rooms: seq<string>,
                 days: nat := 5, lessons: nat := 5, pick: (nat, nat, nat) -> Pick)
      requires PicksFit(Catalog(classes, teachers, subjects, rooms, days, lessons), pick)
      ensures Vocabulary() == Catalog(classes, teachers, subjects, rooms, days, lessons)
      ensures grid == InitializeSchedule(Vocabulary(), pick)
      ensures Valid() && Drawn(grid, Vocabulary())
    {
      this.classes := classes;
      this.teachers := teachers;
      this.subjects := subjects;
      this.rooms := rooms;
      this.days := days;
      this.lessons := lessons;
      grid := InitializeSchedule(Catalog(classes, teachers, subjects, rooms, days, lessons), pick);
    }
  }
}
