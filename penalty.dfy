/** The penalty a timetable scores: +1 per rule violation found, scanned
    class by class and day by day, then one dominant-teacher check per
    class. Lower is better, 0 is a timetable that breaks no rule. */
module Penalty {
  import opened Timetable

  function Teachers(day: seq<Lesson>): (ts: seq<string>)
    ensures |ts| == |day| && forall i :: 0 <= i < |day| ==> ts[i] == day[i].teacher
  {
    seq(|day|, i requires 0 <= i < |day| => day[i].teacher)
  }

  function Subjects(day: seq<Lesson>): (ss: seq<string>)
    ensures |ss| == |day| && forall i :: 0 <= i < |day| ==> ss[i] == day[i].subject
  {
    seq(|day|, i requires 0 <= i < |day| => day[i].subject)
  }

  function Rooms(day: seq<Lesson>): (rs: seq<string>)
    ensures |rs| == |day| && forall i :: 0 <= i < |day| ==> rs[i] == day[i].room
  {
    seq(|day|, i requires 0 <= i < |day| => day[i].room)
  }

  function Elements(s: seq<string>): set<string> {
    set x | x in s
  }

  /** The list has fewer distinct elements than entries (`len(s) != len(set(s))`). */
  predicate HasDuplicates(s: seq<string>) {
    |s| != |Elements(s)|
  }

  ghost predicate PairwiseDistinct(s: seq<string>) {
    forall i, j :: 0 <= i < j < |s| ==> s[i] != s[j]
  }

  lemma ElementsCons(s: seq<string>)
    requires s != []
    ensures Elements(s) == Elements(s[1..]) + {s[0]}
  {
    forall x | x in Elements(s) ensures x in Elements(s[1..]) + {s[0]} {
      var i :| 0 <= i < |s| && s[i] == x;
      if i > 0 {
        assert s[1..][i - 1] == x;
      }
    }
  }

  /** Distinct entries: a head missing from the tail, and a distinct tail. */
  lemma DistinctCons(s: seq<string>)
    requires s != []
    ensures PairwiseDistinct(s) <==> s[0] !in s[1..] && PairwiseDistinct(s[1..])
  {
    var t := s[1..];
    if PairwiseDistinct(s) {
      forall k | 0 <= k < |t| ensures t[k] != s[0] {
        assert t[k] == s[k + 1];
      }
      forall i, j | 0 <= i < j < |t| ensures t[i] != t[j] {
        assert t[i] == s[i + 1] && t[j] == s[j + 1];
      }
    }
    if s[0] !in t && PairwiseDistinct(t) {
      forall i, j | 0 <= i < j < |s| ensures s[i] != s[j] {
        assert s[j] == t[j - 1];
        if i > 0 {
          assert s[i] == t[i - 1];
        }
      }
    }
  }

  /** The cardinality test finds a duplicate exactly when two positions hold the same value. */
  lemma {:induction false} DuplicatesIff(s: seq<string>)
    ensures |Elements(s)| <= |s|
    ensures HasDuplicates(s) <==> !PairwiseDistinct(s)
  {
    if s != [] {
      var t := s[1..];
      DuplicatesIff(t);
      ElementsCons(s);
      DistinctCons(s);
      if s[0] in t {
        assert s[0] in Elements(t);
        assert Elements(s) == Elements(t);
      } else {
        assert s[0] !in Elements(t);
        assert |Elements(s)| == |Elements(t)| + 1;
      }
    }
  }

  /** The three dedicated-room checks of one day. */
  function FixedRoomPenalty(subjects: seq<string>, rooms: seq<string>): (r: nat)
    ensures r <= 3
  {
    (if PhysicalEducation in subjects && Gym !in rooms then 1 else 0)
    + (if Choreography in subjects && DanceRoom !in rooms then 1 else 0)
    + (if Music in subjects && MusicRoom !in rooms then 1 else 0)
  }

  /** Some general classroom is among the day's rooms. */
  predicate HasClassroom(rooms: seq<string>) {
    exists c :: c in Classrooms && c in rooms
  }

  /** One check per subject of `academic` taught that day, each failing when
      no general classroom is among the day's rooms. */
  function AcademicPenalty(academic: seq<string>, subjects: seq<string>, rooms: seq<string>): (r: nat)
    ensures r <= |academic|
    ensures r == 0 <==> HasClassroom(rooms) || forall a :: a in academic ==> a !in subjects
  {
    if academic == [] then 0
    else
      (if academic[0] in subjects && !HasClassroom(rooms) then 1 else 0)
      + AcademicPenalty(academic[1..], subjects, rooms)
  }

  /** The subjects of `academic` taught that day. */
  function Taught(academic: seq<string>, subjects: seq<string>): set<string> {
    set a | a in academic && a in subjects
  }

  /** Every check of one (class, day). */
  function DayPenalty(day: seq<Lesson>): (r: nat)
    ensures r <= 10
  {
    var teachers, subjects, rooms := Teachers(day), Subjects(day), Rooms(day);
    FixedRoomPenalty(subjects, rooms)
    + AcademicPenalty(AcademicSubjects, subjects, rooms)
    + (if HasDuplicates(teachers) then 1 else 0)
    + (if HasDuplicates(subjects) then 1 else 0)
    + (if HasDuplicates(rooms) then 1 else 0)
  }

  /** The day checks of one class, summed over its days. */
  function ClassDayPenalty(cls: seq<seq<Lesson>>): (r: nat)
    ensures r <= 10 * |cls|
  {
    if cls == [] then 0 else DayPenalty(cls[0]) + ClassDayPenalty(cls[1..])
  }

  /** The day checks of every class. */
  function DayChecks(g: Grid): (r: nat)
    ensures forall c :: 0 <= c < |g| ==> ClassDayPenalty(g[c]) <= r
  {
    if g == [] then 0 else ClassDayPenalty(g[0]) + DayChecks(g[1..])
  }

  /** Every teacher assignment of one class, day by day, slot by slot. */
  function ClassTeachers(cls: seq<seq<Lesson>>): seq<string> {
    if cls == [] then [] else Teachers(cls[0]) + ClassTeachers(cls[1..])
  }

  function Count(all: seq<string>, t: string): nat {
    multiset(all)[t]
  }

  /** The most frequent entry of `all[k..]`, the earliest one on a tie. */
  function MostCommonFrom(all: seq<string>, k: nat): (t: string)
    requires k < |all|
    ensures t in all[k..]
    ensures forall i :: k <= i < |all| ==> Count(all, all[i]) <= Count(all, t)
    decreases |all| - k
  {
    if k == |all| - 1 then all[k]
    else
      var rest := MostCommonFrom(all, k + 1);
      if Count(all, all[k]) >= Count(all, rest) then all[k] else rest
  }

  /** `max(set(all), key=all.count)`: a teacher with the largest count. */
  function MostCommon(all: seq<string>): (t: string)
    requires all != []
    ensures t in all
    ensures forall i :: 0 <= i < |all| ==> Count(all, all[i]) <= Count(all, t)
  {
    MostCommonFrom(all, 0)
  }

  /** +1 when the class's most frequent teacher takes fewer than half
      (rounded down) of its lessons. */
  function DominantPenalty(cls: seq<seq<Lesson>>): (r: nat)
    requires ClassTeachers(cls) != []
    ensures r <= 1
  {
    var all := ClassTeachers(cls);
    if Count(all, MostCommon(all)) < |all| / 2 then 1 else 0
  }

  ghost predicate EveryClassTeaches(g: Grid) {
    forall c :: 0 <= c < |g| ==> ClassTeachers(g[c]) != []
  }

  /** The dominant-teacher check of every class. */
  function DominantChecks(g: Grid): (r: nat)
    requires EveryClassTeaches(g)
    ensures r <= |g|
    ensures forall c :: 0 <= c < |g| ==> DominantPenalty(g[c]) <= r
  {
    if g == [] then 0 else DominantPenalty(g[0]) + DominantChecks(g[1..])
  }

  /** The penalty of a timetable. `max` over an empty set fails, so every
      class must have at least one lesson. */
  function Fitness(g: Grid): (r: nat)
    requires EveryClassTeaches(g)
    ensures forall c :: 0 <= c < |g| ==> ClassDayPenalty(g[c]) + DominantPenalty(g[c]) <= r
  {
    DayChecks(g) + DominantChecks(g)
  }

  // ---------------------------------------------------------------------
  // The rules, stated lesson by lesson, and their relation to the penalty.

  /** The room `subject` needs is among the day's rooms. */
  ghost predicate RoomProvided(subject: string, rooms: seq<string>) {
    && (subject == PhysicalEducation ==> Gym in rooms)
    && (subject == Choreography ==> DanceRoom in rooms)
    && (subject == Music ==> MusicRoom in rooms)
    && (subject in AcademicSubjects ==> HasClassroom(rooms))
  }

  /** No teacher, subject or room twice in the day, and every lesson's
      required room present. */
  ghost predicate CleanDay(day: seq<Lesson>) {
    && PairwiseDistinct(Teachers(day))
    && PairwiseDistinct(Subjects(day))
    && PairwiseDistinct(Rooms(day))
    && forall i :: 0 <= i < |day| ==> RoomProvided(day[i].subject, Rooms(day))
  }

  /** Some teacher takes at least half (rounded down) of the class's lessons. */
  ghost predicate HasDominantTeacher(cls: seq<seq<Lesson>>) {
    var all := ClassTeachers(cls);
    exists i :: 0 <= i < |all| && Count(all, all[i]) >= |all| / 2
  }

  ghost predicate CleanSchedule(g: Grid) {
    forall c :: 0 <= c < |g| ==>
      (forall d :: 0 <= d < |g[c]| ==> CleanDay(g[c][d])) && HasDominantTeacher(g[c])
  }

  lemma FixedRoomPenaltyZero(day: seq<Lesson>)
    ensures FixedRoomPenalty(Subjects(day), Rooms(day)) == 0 <==>
      forall i :: 0 <= i < |day| ==>
        && (day[i].subject == PhysicalEducation ==> Gym in Rooms(day))
        && (day[i].subject == Choreography ==> DanceRoom in Rooms(day))
        && (day[i].subject == Music ==> MusicRoom in Rooms(day))
  {
    var subjects := Subjects(day);
    assert forall x :: x in subjects <==> exists i :: 0 <= i < |day| && day[i].subject == x by {
      forall x | x in subjects ensures exists i :: 0 <= i < |day| && day[i].subject == x {
        var i :| 0 <= i < |subjects| && subjects[i] == x;
      }
    }
  }

  lemma AcademicPenaltyZero(day: seq<Lesson>)
    ensures AcademicPenalty(AcademicSubjects, Subjects(day), Rooms(day)) == 0 <==>
      forall i :: 0 <= i < |day| ==>
        (day[i].subject in AcademicSubjects ==> HasClassroom(Rooms(day)))
  {
    var subjects := Subjects(day);
    if !HasClassroom(Rooms(day)) && AcademicPenalty(AcademicSubjects, subjects, Rooms(day)) != 0 {
      var a :| a in AcademicSubjects && a in subjects;
      var i :| 0 <= i < |subjects| && subjects[i] == a;
      assert day[i].subject in AcademicSubjects;
    }
  }

  /** The academic checks count subjects, not days: without a general
      classroom, a day costs one point for each distinct listed subject
      taught on it. */
  lemma {:induction false} AcademicPenaltyCounts(academic: seq<string>, subjects: seq<string>, rooms: seq<string>)
    requires PairwiseDistinct(academic)
    ensures AcademicPenalty(academic, subjects, rooms) == if HasClassroom(rooms) then 0 else |Taught(academic, subjects)|
  {
    if academic != [] {
      var rest := academic[1..];
      DistinctCons(academic);
      AcademicPenaltyCounts(rest, subjects, rooms);
      TaughtCons(academic, subjects);
      if academic[0] in subjects {
        assert academic[0] !in Taught(rest, subjects);
        assert |Taught(academic, subjects)| == |Taught(rest, subjects)| + 1;
      }
    }
  }

  /** The subjects taught that day are the tail's, plus the head if taught. */
  lemma TaughtCons(academic: seq<string>, subjects: seq<string>)
    requires academic != []
    ensures Taught(academic, subjects)
      == Taught(academic[1..], subjects) + (if academic[0] in subjects then {academic[0]} else {})
  {
    var rest := academic[1..];
    forall a | a in Taught(academic, subjects) && a != academic[0] ensures a in Taught(rest, subjects) {
      var k :| 0 <= k < |academic| && academic[k] == a;
      assert rest[k - 1] == a;
    }
  }

  /** The four academic subjects are listed once each, so a day without a
      general classroom costs exactly the number of them taught on it. */
  lemma AcademicSubjectsCounted(subjects: seq<string>, rooms: seq<string>)
    ensures AcademicPenalty(AcademicSubjects, subjects, rooms) ==
      if HasClassroom(rooms) then 0 else |Taught(AcademicSubjects, subjects)|
  {
    AcademicPenaltyCounts(AcademicSubjects, subjects, rooms);
  }

  /** Math and English on a day without a general classroom cost two
      points, not one. */
  lemma MathAndEnglishWithoutClassroomCostTwo()
    ensures AcademicPenalty(AcademicSubjects, ["Math", "English"], [Gym, MusicRoom]) == 2
  {
    var subjects: seq<string> := ["Math", "English"];
    AcademicSubjectsCounted(subjects, [Gym, MusicRoom]);
    assert Taught(AcademicSubjects, subjects) == {"Math", "English"};
  }

  /** A day scores 0 exactly when it keeps every rule. */
  lemma DayPenaltyZeroIff(day: seq<Lesson>)
    ensures DayPenalty(day) == 0 <==> CleanDay(day)
  {
    DuplicatesIff(Teachers(day));
    DuplicatesIff(Subjects(day));
    DuplicatesIff(Rooms(day));
    FixedRoomPenaltyZero(day);
    AcademicPenaltyZero(day);
  }

  lemma {:induction false} ClassDayPenaltyZeroIff(cls: seq<seq<Lesson>>)
    ensures ClassDayPenalty(cls) == 0 <==> forall d :: 0 <= d < |cls| ==> CleanDay(cls[d])
  {
    if cls != [] {
      DayPenaltyZeroIff(cls[0]);
      ClassDayPenaltyZeroIff(cls[1..]);
      assert forall d :: 1 <= d < |cls| ==> cls[d] == cls[1..][d - 1];
    }
  }

  /** The dominant-teacher penalty does not depend on which of several
      equally frequent teachers `max` returns: any most frequent teacher
      decides it the same way. */
  lemma DominantPenaltyAnyMaximum(cls: seq<seq<Lesson>>, t: string)
    requires ClassTeachers(cls) != []
    requires t in ClassTeachers(cls)
    requires forall i :: 0 <= i < |ClassTeachers(cls)| ==>
      Count(ClassTeachers(cls), ClassTeachers(cls)[i]) <= Count(ClassTeachers(cls), t)
    ensures DominantPenalty(cls) == if Count(ClassTeachers(cls), t) < |ClassTeachers(cls)| / 2 then 1 else 0
  {
    var all := ClassTeachers(cls);
    var m := MostCommon(all);
    var i :| 0 <= i < |all| && all[i] == t;
    var j :| 0 <= j < |all| && all[j] == m;
    assert Count(all, m) == Count(all, t);
  }

  /** The dominant-teacher check passes exactly when some teacher takes at
      least half (rounded down) of the class's lessons. */
  lemma DominantPenaltyZeroIff(cls: seq<seq<Lesson>>)
    requires ClassTeachers(cls) != []
    ensures DominantPenalty(cls) == 0 <==> HasDominantTeacher(cls)
  {
    var all := ClassTeachers(cls);
    var m := MostCommon(all);
    if DominantPenalty(cls) == 0 {
      var j :| 0 <= j < |all| && all[j] == m;
      assert Count(all, all[j]) >= |all| / 2;
    }
  }

  lemma {:induction false} DayChecksZeroIff(g: Grid)
    ensures DayChecks(g) == 0 <==>
      forall c, d :: 0 <= c < |g| && 0 <= d < |g[c]| ==> CleanDay(g[c][d])
  {
    if g != [] {
      ClassDayPenaltyZeroIff(g[0]);
      DayChecksZeroIff(g[1..]);
      assert forall c :: 1 <= c < |g| ==> g[c] == g[1..][c - 1];
    }
  }

  lemma {:induction false} DominantChecksZeroIff(g: Grid)
    requires EveryClassTeaches(g)
    ensures DominantChecks(g) == 0 <==> forall c :: 0 <= c < |g| ==> HasDominantTeacher(g[c])
  {
    if g != [] {
      DominantPenaltyZeroIff(g[0]);
      DominantChecksZeroIff(g[1..]);
      assert forall c :: 1 <= c < |g| ==> g[c] == g[1..][c - 1];
    }
  }

  /** A timetable scores 0 exactly when every day keeps every rule and every
      class has a dominant teacher. */
  lemma FitnessZeroIff(g: Grid)
    requires EveryClassTeaches(g)
    ensures Fitness(g) == 0 <==> CleanSchedule(g)
  {
    DayChecksZeroIff(g);
    DominantChecksZeroIff(g);
  }

  /** Every class of the catalog has lessons, or there are no classes, so
      `max` in `fitness` always has a teacher to choose. */
  predicate Teachable(cat: Catalog) {
    cat.classes == 0 || (cat.days > 0 && cat.lessons > 0)
  }

  /** A class with at least one day of at least one lesson has a teacher to count. */
  lemma {:induction false} ShapedClassesTeach(g: Grid, cat: Catalog)
    requires Shaped(g, cat.classes, cat.days, cat.lessons) && Teachable(cat)
    ensures EveryClassTeaches(g)
  {
    forall c | 0 <= c < |g| ensures ClassTeachers(g[c]) != [] {
      assert |Teachers(g[c][0])| == cat.lessons;
    }
  }

  lemma {:induction false} DayChecksBound(g: Grid, days: nat)
    requires forall c :: 0 <= c < |g| ==> |g[c]| == days
    ensures DayChecks(g) <= |g| * days * 10
  {
    if g != [] {
      var rest := g[1..];
      assert forall c :: 0 <= c < |rest| ==> |rest[c]| == days by {
        forall c | 0 <= c < |rest| ensures |rest[c]| == days {
          assert rest[c] == g[c + 1];
        }
      }
      DayChecksBound(rest, days);
      BoundStep(|rest|, days, ClassDayPenalty(g[0]), DayChecks(rest));
    }
  }

  lemma BoundStep(k: nat, days: nat, a: nat, b: nat)
    requires a <= days * 10 && b <= k * days * 10
    ensures a + b <= (k + 1) * days * 10
  {
  }

  /** At most ten violations per (class, day) plus one per class. */
  lemma FitnessBound(g: Grid, classes: nat, days: nat, lessons: nat)
    requires Shaped(g, classes, days, lessons)
    requires EveryClassTeaches(g)
    ensures Fitness(g) <= classes * days * 10 + classes
  {
    DayChecksBound(g, days);
    assert |g| == classes;
  }

  /** One class, one day, one lesson of Math by T1 in Classroom 1 breaks no rule. */
  lemma SingleMathLessonScoresZero()
    ensures EveryClassTeaches([[[Lesson("Math", "T1", "Classroom 1")]]])
    ensures Fitness([[[Lesson("Math", "T1", "Classroom 1")]]]) == 0
  {
    var g: Grid := [[[Lesson("Math", "T1", "Classroom 1")]]];
    assert ClassTeachers(g[0]) == ["T1"];
    assert Count(["T1"], "T1") == 1;
    assert HasDominantTeacher(g[0]);
    assert Rooms(g[0][0]) == ["Classroom 1"];
    assert Classrooms[0] in Rooms(g[0][0]);
    assert CleanDay(g[0][0]);
    FitnessZeroIff(g);
  }

  /** Physical Education taught in Classroom 1 costs at least the missing-gym check. */
  lemma MisplacedPhysicalEducationPenalized(other: seq<seq<Lesson>>)
    requires ClassTeachers(other) != []
    ensures EveryClassTeaches([[[Lesson(PhysicalEducation, "T1", "Classroom 1")]], other])
    ensures Fitness([[[Lesson(PhysicalEducation, "T1", "Classroom 1")]], other]) >= 1
  {
    var day := [Lesson(PhysicalEducation, "T1", "Classroom 1")];
    var g := [[day], other];
    assert DayPenalty(day) >= 1 by {
      assert Subjects(day) == [PhysicalEducation];
      assert Rooms(day) == ["Classroom 1"];
      assert FixedRoomPenalty(Subjects(day), Rooms(day)) == 1;
    }
    assert ClassDayPenalty(g[0]) >= 1;
    assert DayChecks(g) >= 1;
  }
}
