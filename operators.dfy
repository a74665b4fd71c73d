/** What the genetic operators do to a grid, as functions of the grid and
    of the random draws the caller supplies. The methods of
    `GeneticAlgorithm` apply them to `Schedule` objects in place. */
module Operators {
  import opened Timetable

  function Min(a: int, b: int): int {
    if a <= b then a else b
  }

  /** `g` with the lesson at `[c][d][l]` replaced by `x`. */
  function SetCell(g: Grid, c: nat, d: nat, l: nat, x: Lesson): (r: Grid)
    requires c < |g| && d < |g[c]| && l < |g[c][d]|
    ensures |r| == |g| && forall i :: 0 <= i < |g| ==> |r[i]| == |g[i]|
    ensures forall i, j :: 0 <= i < |g| && 0 <= j < |g[i]| ==> |r[i][j]| == |g[i][j]|
    ensures r[c][d][l] == x
    ensures forall i, j, k ::
      (0 <= i < |g| && 0 <= j < |g[i]| && 0 <= k < |g[i][j]| && (i, j, k) != (c, d, l))
      ==> r[i][j][k] == g[i][j][k]
  {
    g[c := g[c][d := g[c][d][l := x]]]
  }

  // ---------------------------------------------------------------------
  // Mutation

  /** The draws of one call of `mutate`: the coin (`random() < mutation_rate`),
      the cell, the subject, the room picked for it (used only when the
      subject has no fixed room) and the teacher. */
  datatype MutationDraw = MutationDraw(fire: bool, classIndex: nat, day: nat, slot: nat,
                                       subject: string, room: string, teacher: string)

  /** The draws `mutate` can make on a schedule with catalog `cat`. */
  ghost predicate MutationDrawFits(m: MutationDraw, cat: Catalog) {
    m.fire ==>
      && m.classIndex < cat.classes && m.day < cat.days && m.slot < cat.lessons
      && m.subject in cat.subjects && m.teacher in cat.teachers
      && (IsFixedRoomSubject(m.subject) || m.room in RoomChoices(m.subject, cat.rooms))
  }

  /** The room `mutate` assigns to `subject`, given the room it drew. */
  function MutationRoom(subject: string, drawn: string): (r: string)
    ensures IsFixedRoomSubject(subject) ==> RoomCompatible(subject, r)
    ensures RoomCompatible(subject, drawn) || !IsFixedRoomSubject(subject) ==> r == drawn
  {
    if subject == PhysicalEducation then Gym
    else if subject == Choreography then DanceRoom
    else if subject == Music then MusicRoom
    else drawn
  }

  /** The grid after one call of `mutate`. */
  function MutatedGrid(g: Grid, m: MutationDraw): (r: Grid)
    requires m.fire ==> m.classIndex < |g| && m.day < |g[m.classIndex]| && m.slot < |g[m.classIndex][m.day]|
    ensures |r| == |g| && forall c :: 0 <= c < |g| ==> |r[c]| == |g[c]|
  {
    if !m.fire then g
    else SetCell(g, m.classIndex, m.day, m.slot, Lesson(m.subject, m.teacher, MutationRoom(m.subject, m.room)))
  }

  /** Mutation keeps the grid's shape and changes at most the drawn cell:
      no cell at all when the coin fails. */
  lemma MutationTouchesOneCell(g: Grid, m: MutationDraw, cat: Catalog)
    requires Shaped(g, cat.classes, cat.days, cat.lessons) && MutationDrawFits(m, cat)
    ensures Shaped(MutatedGrid(g, m), cat.classes, cat.days, cat.lessons)
    ensures !m.fire ==> MutatedGrid(g, m) == g
    ensures forall c, d, l ::
      (0 <= c < |g| && 0 <= d < |g[c]| && 0 <= l < |g[c][d]| && (!m.fire || (c, d, l) != (m.classIndex, m.day, m.slot)))
      ==> MutatedGrid(g, m)[c][d][l] == g[c][d][l]
  {
  }

  /** The lesson `mutate` writes takes its subject and teacher from the
      catalog, and its room from the compatibility table: the dedicated room
      of a fixed-room subject, a general classroom for an academic subject,
      a catalog room otherwise. */
  lemma MutatedCellCompatible(g: Grid, m: MutationDraw, cat: Catalog)
    requires Shaped(g, cat.classes, cat.days, cat.lessons) && MutationDrawFits(m, cat) && m.fire
    ensures var x := MutatedGrid(g, m)[m.classIndex][m.day][m.slot];
      && x.subject in cat.subjects && x.teacher in cat.teachers
      && x.room in RoomChoices(x.subject, cat.rooms)
      && RoomCompatible(x.subject, x.room)
  {
  }

  /** Every room the compatibility table can assign is in `rooms`. */
  ghost predicate RoomsCoverTable(rooms: seq<string>) {
    Gym in rooms && DanceRoom in rooms && MusicRoom in rooms && forall c :: c in Classrooms ==> c in rooms
  }

  /** When the catalog holds every room the table can assign, a mutated grid
      still draws all its cells from the catalog. (Otherwise it need not:
      `mutate` writes `Gym` even when the catalog has no gym.) */
  lemma MutationKeepsCatalog(g: Grid, m: MutationDraw, cat: Catalog)
    requires Shaped(g, cat.classes, cat.days, cat.lessons) && MutationDrawFits(m, cat)
    requires Drawn(g, cat) && RoomsCoverTable(cat.rooms)
    ensures Drawn(MutatedGrid(g, m), cat)
  {
    if m.fire {
      MutatedCellCompatible(g, m, cat);
    }
  }

  // ---------------------------------------------------------------------
  // Crossover

  /** The draws of one call of `crossover`: the coin (`random() <
      crossover_rate`) and the cut point. */
  datatype CrossoverDraw = CrossoverDraw(fire: bool, point: nat)

  /** `randint(0, classes - 1)`. */
  ghost predicate CrossoverDrawFits(x: CrossoverDraw, classes: nat) {
    x.fire ==> x.point < classes
  }

  /** The two grids after `crossover`: the first parent's classes before the
      cut followed by the second's from the cut on, and the other way round.
      Slices past the end stop at the end, as Python's do. */
  function Crossed(g1: Grid, g2: Grid, x: CrossoverDraw): (r: (Grid, Grid))
    ensures multiset(r.0) + multiset(r.1) == multiset(g1) + multiset(g2)
  {
    if !x.fire then (g1, g2)
    else
      var k1, k2 := Min(x.point, |g1|), Min(x.point, |g2|);
      assert g1 == g1[..k1] + g1[k1..] && g2 == g2[..k2] + g2[k2..];
      (g1[..k1] + g2[k2..], g2[..k2] + g1[k1..])
  }

  /** Crossover exchanges whole classes: at every class index each child
      holds one parent's row, the first child the first parent's before the
      cut and the second parent's from the cut on. */
  lemma CrossoverSwapsRows(g1: Grid, g2: Grid, x: CrossoverDraw)
    requires |g1| == |g2|
    ensures |Crossed(g1, g2, x).0| == |g1| && |Crossed(g1, g2, x).1| == |g1|
    ensures forall i :: 0 <= i < |g1| ==>
      if x.fire && x.point <= i
      then Crossed(g1, g2, x).0[i] == g2[i] && Crossed(g1, g2, x).1[i] == g1[i]
      else Crossed(g1, g2, x).0[i] == g1[i] && Crossed(g1, g2, x).1[i] == g2[i]
  {
  }

  /** Crossing the children again at the same cut gives back the parents. */
  lemma CrossoverTwiceRestores(g1: Grid, g2: Grid, x: CrossoverDraw)
    requires |g1| == |g2|
    ensures Crossed(Crossed(g1, g2, x).0, Crossed(g1, g2, x).1, x) == (g1, g2)
  {
    if x.fire {
      var k := Min(x.point, |g1|);
      var c1, c2 := g1[..k] + g2[k..], g2[..k] + g1[k..];
      assert c1[..k] + c2[k..] == g1;
      assert c2[..k] + c1[k..] == g2;
    }
  }

  /** Crossing a grid with itself leaves it as it was. */
  lemma CrossoverWithItself(g: Grid, x: CrossoverDraw)
    ensures Crossed(g, g, x) == (g, g)
  {
    if x.fire {
      var k := Min(x.point, |g|);
      assert g[..k] + g[k..] == g;
    }
  }

  /** Two grids of the same shape give children of that shape, drawn from
      the catalog when the parents are. */
  lemma CrossoverKeepsShape(g1: Grid, g2: Grid, x: CrossoverDraw, cat: Catalog)
    requires Shaped(g1, cat.classes, cat.days, cat.lessons) && Shaped(g2, cat.classes, cat.days, cat.lessons)
    ensures Shaped(Crossed(g1, g2, x).0, cat.classes, cat.days, cat.lessons)
    ensures Shaped(Crossed(g1, g2, x).1, cat.classes, cat.days, cat.lessons)
    ensures Drawn(g1, cat) && Drawn(g2, cat) ==> Drawn(Crossed(g1, g2, x).0, cat) && Drawn(Crossed(g1, g2, x).1, cat)
  {
    CrossoverSwapsRows(g1, g2, x);
  }

  // ---------------------------------------------------------------------
  // Repair

  /** The room `post_process` computes for a lesson: the subject's dedicated
      room, one of the general classrooms (a random pick among them) for an
      academic subject in another room, and the lesson's own room otherwise.
      The result lists the possible values. */
  function RepairCandidates(subject: string, room: string): (candidates: seq<string>)
    ensures candidates != []
    ensures forall r :: r in candidates ==> RoomCompatible(subject, r)
    ensures RoomCompatible(subject, room) <==> candidates == [room]
  {
    if subject == PhysicalEducation && room != Gym then [Gym]
    else if subject == Choreography && room != DanceRoom then [DanceRoom]
    else if subject == Music && room != MusicRoom then [MusicRoom]
    else if subject in AcademicSubjects && room !in Classrooms then Classrooms
    else [room]
  }
}
