# Timetable genetic algorithm, modelled in Dafny

This project models the core of a school-timetable optimiser.

- A timetable (`Schedule`) is a grid indexed by class, day and lesson slot. Each cell holds a
  `(subject, teacher, room)` triple drawn from the schedule's catalog.
- The penalty function (`fitness`) adds 1 for every broken rule:
  - a fixed-room subject without its room that day;
  - an academic subject taught on a day with no general classroom;
  - a teacher, subject or room used twice in one day;
  - a class with no teacher taking at least half of its lessons.
- A genetic algorithm improves a population of schedules:
  - it keeps an elite prefix;
  - it samples two parents from the first fifty members;
  - it applies one-point crossover over classes, then mutation of one cell, then a repair pass;
  - it sorts each generation by penalty and records the best penalty in `fitness_over_time`.

Modules:

- `Timetable` (`timetable.dfy`):
  - the grid, the catalog and the room-compatibility table;
  - the random construction of a grid;
  - the `Schedule` class. Its `grid` field is the state the operators change.
- `Penalty` (`penalty.dfy`):
  - the penalty as a recursive sum over classes and days;
  - the rules stated lesson by lesson (`CleanDay`, `HasDominantTeacher`, `CleanSchedule`);
  - proofs that the penalty is 0 exactly when every rule holds, plus bounds on the penalty.
- `Operators` (`operators.dfy`): what mutation, crossover and the repair pass do to a grid, as
  functions of the grid and of the random draws.
- `Sorting` (`sorting.dfy`): `sorted(..., key=...)` as an insertion sort on `(key, item)` pairs.
  Sortedness, permutation and stability are proved.
- `Genetic` (`genetic.dfy`): the `GeneticAlgorithm` class.
  - `Mutate` and `Crossover` change `Schedule` objects in place. `PostProcess` walks the grid and
    changes nothing.
  - The breeding loop, the generation loop that appends to `fitnessOverTime`, and the key
    computation of the sort are methods with loop invariants. The ordering itself is the
    recursive `SortByKey`.

Randomness becomes explicit arguments:

- `random.choice` at construction is a `pick` function of indices into the catalog lists.
- `random.random() < rate` is a boolean coin.
- `randint` and `random.sample` are indices. Their preconditions give the ranges Python draws from.

Where Python would raise instead, a precondition excludes the input:

- `random.choice` on an empty subject, teacher or room list when the grid has at least one cell
  (`main.py:17`): `PicksFit` asks for every pick to index the catalog lists;
- `random.choice` on an empty subject or teacher list, or on an empty room list for a subject
  outside the room table, in `mutate` (`main.py:84`, `main.py:94-95`): `MutationDrawFits` asks
  for the drawn subject, teacher and room to come from those lists;
- `randint(0, -1)` on an empty dimension (`main.py:79-81`, `main.py:101`);
- `random.sample` from fewer than two members (`main.py:129`);
- `max` over a class without lessons (`main.py:71`);
- `population[0]` on an empty population (`main.py:133-134`): `optimize` requires
  `populationSize >= 1`.

The constructor keeps the defaults of `days=5, lessons=5` (`main.py:7`) as default parameter
values.

Python's object identity is kept:

- `crossover`, `mutate` and `post_process` return the objects they are given.
- The first population is made of `population_size` distinct objects, and every later population
  is made of objects of the first one.
- A member of the elite prefix can be changed in place later in the same generation, because it
  can also be sampled as a parent. The model therefore records each generation together with the
  grids its objects hold when it is sorted, as a map from object to grid.

A grid is held as a value: crossover moves whole class rows from one object to the other, and
mutation writes into the object's own row, so no row list is ever shared by two schedules.

Two points where the model follows the code as written:

- The academic-room rule adds one point per academic subject taught that day, not one per day
  (`main.py:51-54`). `Penalty.AcademicPenaltyCounts` states the count.
- `post_process` computes a compatible room for each lesson by assigning to the loop variable
  `room` (`main.py:115`, `117`, `119`, `121`), and nothing reads that variable afterwards. The
  model proves the schedule comes back unchanged and does not add a write-back.

## Model

| member | source | states |
|---|---|---|
| Timetable.InitializeSchedule | main.py:16-18 | the grid has `classes` rows of `days` days of `lessons` cells, and every cell's subject, teacher and room is in the catalog lists |
| Timetable.Schedule.constructor | main.py:7-14 | stores the catalog and dimensions (days and lessons default to 5), and sets the grid to the random construction over them, which is well shaped and drawn from the catalog |
| Timetable.RoomChoices | main.py:85-94 | the rooms `mutate` can assign: each is compatible with the subject; the list is non-empty for fixed-room and academic subjects; other subjects take catalog rooms |
| Penalty.DuplicatesIff | main.py:57-66 | `len(s) != len(set(s))` holds exactly when two positions of `s` hold the same value, and the set is never larger than the list |
| Penalty.FixedRoomPenalty | main.py:41-47 | the three dedicated-room checks of one day add at most 3 points |
| Penalty.FixedRoomPenaltyZero | main.py:41-47 | the three fixed-room checks add 0 exactly when every Physical Education, Choreography or Music lesson has its room among the day's rooms |
| Penalty.AcademicPenalty | main.py:49-54 | at most one point per listed academic subject, and 0 exactly when a general classroom is in use or no listed subject is taught |
| Penalty.AcademicPenaltyCounts | main.py:51-54 | for a list of distinct subjects, the checks add 0 when a general classroom is in use and otherwise exactly the number of listed subjects taught that day |
| Penalty.AcademicSubjectsCounted | main.py:50-54 | with the four academic subjects of the code, a day without a general classroom costs one point per academic subject taught |
| Penalty.MathAndEnglishWithoutClassroomCostTwo | main.py:50-54 | Math and English on a day whose rooms are the Gym and the Music Room cost 2 points, not 1 |
| Penalty.AcademicPenaltyZero | main.py:49-54 | the academic checks add 0 exactly when every academic lesson's day has a general classroom among its rooms |
| Penalty.DayPenalty | main.py:37-66 | one (class, day) adds at most 10 points |
| Penalty.ClassDayPenalty | main.py:36-66 | the day checks of one class add at most 10 points per day |
| Penalty.DayChecks | main.py:35-66 | the day checks of a grid count every class's day checks in full |
| Penalty.DayPenaltyZeroIff | main.py:37-66 | a day adds 0 exactly when its teachers, subjects and rooms are pairwise distinct and every lesson's required room is present |
| Penalty.ClassDayPenaltyZeroIff | main.py:36-66 | a class's day checks add 0 exactly when each of its days keeps every rule |
| Penalty.DayChecksZeroIff | main.py:35-66 | all day checks add 0 exactly when every (class, day) keeps every rule |
| Penalty.MostCommon | main.py:71 | the chosen teacher teaches in the class and no teacher has more lessons there |
| Penalty.DominantPenalty | main.py:70-73 | the dominant-teacher check of one class adds at most 1 point |
| Penalty.DominantChecks | main.py:69-73 | the dominant checks add at most one point per class, and count every class's check in full |
| Penalty.DominantPenaltyAnyMaximum | main.py:69-73 | any most frequent teacher gives the same dominant-teacher verdict, so the tie-break of `max` does not matter |
| Penalty.DominantPenaltyZeroIff | main.py:69-73 | the dominant check adds 0 exactly when some teacher takes at least `len // 2` of the class's lessons |
| Penalty.DominantChecksZeroIff | main.py:69-73 | the dominant checks add 0 exactly when every class has such a teacher |
| Penalty.Fitness | main.py:33-75 | the penalty counts every class's day checks and its dominant-teacher check; `FitnessZeroIff` and `FitnessBound` state when it is 0 and how large it can be |
| Penalty.FitnessZeroIff | main.py:33-75 | a timetable scores 0 exactly when it breaks no rule |
| Penalty.ShapedClassesTeach | main.py:69-71 | a grid with at least one day of one lesson per class gives `max` a teacher to choose in every class |
| Penalty.DayChecksBound | main.py:35-66 | the day checks of a grid with `days` days per class add at most `classes * days * 10` |
| Penalty.FitnessBound | main.py:33-75 | `fitness <= classes * days * 10 + classes` |
| Penalty.SingleMathLessonScoresZero | main.py:33-75 | a 1×1×1 timetable holding `('Math', 'T1', 'Classroom 1')` scores 0 |
| Penalty.MisplacedPhysicalEducationPenalized | main.py:42-43 | Physical Education in Classroom 1 costs at least one point, whatever the other class holds |
| Operators.SetCell | main.py:96 | the grid keeps its shape, the target cell holds the new lesson, and every other cell is unchanged |
| Operators.MutationRoom | main.py:85-94 | a Physical Education, Choreography or Music lesson always gets its own room; a drawn room is kept when it already suits the subject and for every other subject |
| Operators.MutatedGrid | main.py:78-96 | mutation keeps the number of classes and of days in each class; `MutationTouchesOneCell` states which cells may change |
| Operators.MutationTouchesOneCell | main.py:77-97 | mutation keeps the shape and leaves the grid unchanged when the coin fails; otherwise every cell but the drawn one is unchanged |
| Operators.MutatedCellCompatible | main.py:83-96 | the written lesson's subject and teacher come from the catalog, and its room is the subject's dedicated room, a general classroom for an academic subject, or a catalog room otherwise |
| Operators.MutationKeepsCatalog | main.py:84-96 | when the catalog holds every room the table can assign, a mutated grid still takes all its cells from the catalog |
| Operators.Crossed | main.py:100-104 | the two children hold exactly the parents' class rows between them, none lost and none duplicated |
| Operators.CrossoverSwapsRows | main.py:99-105 | both children keep the parents' length; at every class index before the cut each child keeps its own parent's row, and from the cut on the rows are exchanged |
| Operators.CrossoverTwiceRestores | main.py:99-105 | crossing the children again at the same cut restores both parents |
| Operators.CrossoverWithItself | main.py:99-105 | crossing a grid with itself leaves it unchanged |
| Operators.CrossoverKeepsShape | main.py:99-105 | children of two well-shaped grids are well shaped, and are drawn from the catalog when both parents are |
| Operators.RepairCandidates | main.py:113-121 | the rooms the repair computes are never empty and always compatible, and the repair keeps the lesson's room exactly when that room is already compatible |
| Sorting.Insert | main.py:132 | inserting into a sorted list keeps it sorted and adds exactly the new pair |
| Sorting.SortByKey | main.py:132 | the result is sorted by key and is a permutation of the input |
| Sorting.InsertItems | main.py:132 | insertion adds exactly the new item to the items |
| Sorting.SortItems | main.py:132 | sorting the pairs permutes the items |
| Sorting.InsertStable | main.py:132 | the inserted pair lands ahead of the pairs with its key, and the pairs of each key keep their order |
| Sorting.SortStable | main.py:132 | the sort is stable: for every key, the pairs with that key come out in input order |
| Genetic.PairsPerGeneration | main.py:128-131 | the number of passes of the breeding loop: none when the elite prefix already fills the population, otherwise the fewest pairs that bring the elite prefix up to the population size |
| Genetic.GenerationSize | main.py:127-131 | each later population has between `population_size` and `population_size + 1` members, one more exactly when the elite prefix is shorter than the population size and their difference is odd |
| Genetic.Window | main.py:129 | `population[:50]`: `min(len, 50)` members, all from the population |
| Genetic.Offspring | main.py:128-131 | two children per sampled pair, each a member of the window |
| Genetic.OffspringPairs | main.py:129-131 | children `2k` and `2k + 1` are the window members at the `k`-th pair of sampled positions |
| Genetic.Bred | main.py:127-131 | the new population is the elite prefix, the same objects in the same order, followed by the children; its length is the prefix's plus two per pair |
| Genetic.CrossIn | main.py:130 | crossover changes the recorded grids of the two parents only, and the grids stay well shaped with a teacher in every class |
| Genetic.MutateIn | main.py:131 | mutation changes the recorded grid of its child only, and the grids stay well shaped with a teacher in every class |
| Genetic.BreedStep | main.py:129-131 | one pass of the breeding loop changes the recorded grids of the two sampled parents only |
| Genetic.BreedGrids | main.py:128-131 | the whole breeding loop changes only grids of window members, keeps the set of objects, and keeps every grid well shaped |
| Genetic.Keys | main.py:132 | the `(penalty, member)` pairs list the population in order, each keyed by its member's penalty |
| Genetic.RankBy | main.py:132 | the sorted population is a permutation of the population, in ascending order of penalty |
| Genetic.RankByStable | main.py:132 | for every penalty, the members with that penalty keep their population order after sorting |
| Genetic.LineageAppend | main.py:126-132 | one more generation, bred and sorted from the last one, extends the chain of generations |
| Genetic.LineageBest | main.py:132-133 | the first member of every later sorted generation has that generation's smallest penalty |
| Genetic.RecordedAppend | main.py:133 | appending a generation's first penalty keeps entry `g - 1` equal to the best penalty of generation `g` |
| Genetic.HistoryAppend | main.py:126-133 | one pass of the generation loop extends the chain of generations and the recorded penalties together |
| Genetic.FoundedFit | main.py:125 | the grids of a first population are well shaped and give every class a teacher |
| Genetic.FoundedHistory | main.py:124-133 | a run from the sorted first population is the record `optimize` leaves |
| Genetic.RankedBest | main.py:132-134 | the first member of a sorted population has its smallest penalty |
| Genetic.GeneticAlgorithm.constructor | main.py:22-28 | stores the size, generation count and elite size; `fitnessOverTime` starts empty |
| Genetic.GeneticAlgorithm.InitializePopulation | main.py:30-31 | `population_size` fresh, pairwise distinct schedules over the base catalog, each the random construction for its own picks |
| Genetic.GeneticAlgorithm.Mutate | main.py:77-97 | returns the same object, keeps it well shaped, and replaces its grid by the mutated grid |
| Genetic.GeneticAlgorithm.Crossover | main.py:99-105 | returns the two parents, whose grids become the two children; they stay well shaped when both were; the two parents may be one object |
| Genetic.GeneticAlgorithm.PostProcess | main.py:107-122 | returns the same object with its grid unchanged (the method changes nothing) |
| Genetic.GeneticAlgorithm.KeyByFitness | main.py:132 | pairs each member with its penalty, in population order |
| Genetic.GeneticAlgorithm.SortPopulation | main.py:132 | the result is `RankBy` of the population: a permutation in ascending order of penalty, members of equal penalty in population order (`RankByStable`) |
| Genetic.GeneticAlgorithm.BreedPair | main.py:129-131 | the two children are the two sampled parents, and every object of the pool then holds the grid `BreedStep` gives it |
| Genetic.GeneticAlgorithm.Breed | main.py:127-131 | the new population is `Bred`: the elite prefix and then the sampled parents, two per pass; it has `GenerationSize` members; every object of the pool then holds the grid `BreedGrids` gives it |
| Genetic.GeneticAlgorithm.FirstGeneration | main.py:125 | `initial` holds `population_size` fresh, pairwise distinct schedules, member `i` the random construction for its own picks; the population is `initial` sorted by those grids' penalties |
| Genetic.GeneticAlgorithm.NextGeneration | main.py:127-132 | the breeding loop and the sort: the result is `Bred` sorted by the penalties of the grids `BreedGrids` leaves, which the pool's objects then hold |
| Genetic.GeneticAlgorithm.RecordBest | main.py:133 | appends exactly the given penalty to `fitnessOverTime` and leaves the schedules as they were |
| Genetic.GeneticAlgorithm.Generation | main.py:127-133 | one generation: the sorted bred population and its grids as in `NextGeneration`, and `fitnessOverTime` grows by the new first member's penalty, the smallest in the generation |
| Genetic.GeneticAlgorithm.Advance | main.py:126-133 | one pass of the generation loop extends the chain of generations, the pool's grids and the recorded penalties by one generation |
| Genetic.GeneticAlgorithm.RunGenerations | main.py:126-133 | generation `g + 1` is generation `g` bred with the `g`-th draws and sorted; the result is the last generation, whose grids the pool's objects hold; `fitnessOverTime` grows by entry `g - 1` = best penalty of generation `g` |
| Genetic.GeneticAlgorithm.Optimize | main.py:124-134 | the first generation is `initial` (distinct objects holding the random constructions for `pick`) sorted; every later one is the previous one bred with its draws and sorted; `fitnessOverTime` grows by each generation's best penalty; the result is the first member of the last generation, has its smallest penalty, and its penalty is the last entry recorded |

## Left out

- Plotting, pretty-printing, JSON save and load, and the driver script are left out: they are
  I/O around the core.
- The `random` module is left out. Every draw is an argument of the operation that uses it.
- The `mutation_rate` and `crossover_rate` fields are left out. The float comparison
  `random() < rate` becomes a boolean coin, so floating point is not modelled.
- Genetic.GeneticAlgorithm.Optimize: the first population, the later populations, the grids
  each generation held and the recorded penalties are ghost values, because Python keeps none of
  them.
- Genetic.GeneticAlgorithm.Optimize: does not restate that the first population's objects are
  new; `InitializePopulation` and `FirstGeneration` state it.
- Genetic.GeneticAlgorithm.Mutate: requires in-range draws whenever the coin succeeds. Python's
  `randint(0, n - 1)` raises on an empty dimension, and the model does not represent that raised
  exception.
- Genetic.GeneticAlgorithm.Crossover: requires a cut below `classes` whenever the coin succeeds.
  Python raises on a schedule with no classes, and that exception is not represented.
- Genetic.GeneticAlgorithm.Optimize: requires every class to have at least one lesson when there
  are classes, and parent draws within `population[:50]`. On other inputs Python raises in `max`
  or `random.sample`, and those exceptions are not represented.
- Genetic.GeneticAlgorithm.Optimize: requires `populationSize >= 1`. With no members,
  `population[0]` raises IndexError (`main.py:133-134`), and that exception is not represented.
- Timetable.Schedule.constructor: requires every pick to index the catalog lists. On an empty
  subject, teacher or room list `random.choice` raises IndexError (`main.py:17`), and that
  exception is not represented.
- Genetic.GeneticAlgorithm.Mutate: requires the drawn subject and teacher to come from the catalog
  and the drawn room from the room choices. On an empty list `random.choice` raises IndexError
  (`main.py:84`, `main.py:94-95`), and that exception is not represented.
