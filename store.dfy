/**
 * The persistence store behind the data-access object: an entity manager
 * together with the database it writes to, seen as one object graph. Each
 * table is a map from id to the managed entity stored under that id; each
 * entity kind draws its ids from its own sequence (start 1, allocation
 * size 1). A stored entity's fields are its row, so a change to a stored
 * entity is visible to every later read.
 *
 * The `course_student` join table is not kept separately: a course and a
 * student are linked when both are stored and either side's collection
 * names the other, because both sides map that table as owners.
 */
module Store {
  import opened Wrappers
  import opened Entities
  import opened Cascade

  /** The exceptions the persistence calls raise, as values. */
  datatype Failure =
    | NoResult             // a single-result query matched no row
    | NonUniqueResult      // a single-result query, or a to-one load, matched several rows
    | NullReference        // a null reference was dereferenced
    | IllegalArgument      // remove was given null or a detached entity
    | DetachedEntity       // persist reached an entity that already has an id
    | ConstraintViolation  // a foreign-key or unique constraint of the schema would break

  datatype Result<T> = Ok(value: T) | Err(error: Failure)

  datatype Outcome = Pass | Fail(error: Failure)

  /**
   * An entity of `u` already has an id. Every call of the data-access object
   * runs in a new persistence context that manages nothing yet, so such an
   * entity is detached there, whether or not a row with its id is stored.
   */
  predicate HasDetached(u: set<Node>)
    reads InstructorsOf(u)`id, DetailsOf(u)`id, CoursesOf(u)`id, ReviewsOf(u)`id, StudentsOf(u)`id
  {
    exists n :: n in u && IdOf(n) != 0
  }

  /** The tables and the id sequences of a store at one moment. */
  datatype Tables = Tables(
    instructors: map<int, Instructor>, details: map<int, InstructorDetail>, courses: map<int, Course>,
    reviews: map<int, Review>, students: map<int, Student>,
    instructorSeq: int, detailSeq: int, courseSeq: int, reviewSeq: int, studentSeq: int)

  /**
   * From `m0` to `m` the sequence only advanced, every row of `m0` stayed
   * under its key, and every added key was drawn from the sequence meanwhile.
   */
  ghost predicate Grows<V>(m0: map<int, V>, next0: int, m: map<int, V>, next: int)
  {
    && next0 <= next
    && (forall k :: k in m0 ==> k in m && m[k] == m0[k])
    && (forall k :: k in m && k !in m0 ==> next0 <= k < next)
  }

  /** Every table of `t` grows from the same table of `t0`: nothing stored was changed or removed. */
  ghost predicate Extends(t0: Tables, t: Tables)
  {
    && Grows(t0.instructors, t0.instructorSeq, t.instructors, t.instructorSeq)
    && Grows(t0.details, t0.detailSeq, t.details, t.detailSeq)
    && Grows(t0.courses, t0.courseSeq, t.courses, t.courseSeq)
    && Grows(t0.reviews, t0.reviewSeq, t.reviews, t.reviewSeq)
    && Grows(t0.students, t0.studentSeq, t.students, t.studentSeq)
  }

  lemma ExtendsTransitive(t0: Tables, t1: Tables, t2: Tables)
    requires Extends(t0, t1) && Extends(t1, t2)
    ensures Extends(t0, t2)
  {
  }

  /** Adding a fresh key adds exactly its value to the map's values. */
  lemma ValuesOfUpdate<K, V>(m: map<K, V>, k: K, v: V)
    requires k !in m
    ensures m[k := v].Values == m.Values + {v}
  {
    forall x | x in m.Values
      ensures x in m[k := v].Values
    {
      var j :| j in m && m[j] == x;
      assert j in m[k := v] && m[k := v][j] == x;
    }
    forall x | x in m[k := v].Values
      ensures x in m.Values + {v}
    {
      var j :| j in m[k := v] && m[k := v][j] == x;
      if j != k {
        assert j in m && m[j] == x;
      }
    }
    assert v == m[k := v][k];
  }

  /** A key under which `m` holds the value `v`. */
  lemma KeyOf<K, V>(m: map<K, V>, v: V) returns (k: K)
    requires v in m.Values
    ensures k in m && m[k] == v
  {
    k :| k in m && m[k] == v;
  }

  /** Removing a key whose value no other key holds removes exactly that value. */
  lemma ValuesOfRemove<K, V>(m: map<K, V>, k: K)
    requires k in m
    requires forall j :: j in m && j != k ==> m[j] != m[k]
    ensures (m - {k}).Values == m.Values - {m[k]}
  {
    forall x | x in m.Values - {m[k]}
      ensures x in (m - {k}).Values
    {
      var j :| j in m && m[j] == x;
      assert j in m - {k} && (m - {k})[j] == x;
    }
    forall x | x in (m - {k}).Values
      ensures x in m.Values - {m[k]}
    {
      var j :| j in m - {k} && (m - {k})[j] == x;
      assert m[j] == x;
    }
  }

  /** Dropping entries from a map keeps only values it already had. */
  lemma ValuesOfRestrict<K, V>(m: map<K, V>, m': map<K, V>)
    requires forall k :: k in m' ==> k in m && m'[k] == m[k]
    ensures m'.Values <= m.Values
  {
    forall x | x in m'.Values
      ensures x in m.Values
    {
      var j :| j in m' && m'[j] == x;
      assert m[j] == x;
    }
  }

  /** The nodes of the entities in the five sets. */
  function NodesOf(ins: set<Instructor>, ds: set<InstructorDetail>, cs: set<Course>, rs: set<Review>, ss: set<Student>): set<Node>
  {
    (set i | i in ins :: InstructorNode(i))
    + (set d | d in ds :: DetailNode(d))
    + (set c | c in cs :: CourseNode(c))
    + (set r | r in rs :: ReviewNode(r))
    + (set s | s in ss :: StudentNode(s))
  }

  /**
   * The schema's integrity constraints over a set of instructor, detail and
   * course rows: a course's instructor is a row, an instructor's detail is a
   * row, and no two instructors share a detail (the one-to-one join column
   * is unique).
   */
  ghost predicate ConsistentAmong(ins: set<Instructor>, ds: set<InstructorDetail>, cs: set<Course>)
    reads ins`detail, cs`instructor
  {
    && (forall c :: c in cs && c.instructor != null ==> c.instructor in ins)
    && (forall i :: i in ins && i.detail != null ==> i.detail in ds)
    && (forall i, j :: i in ins && j in ins && i != j && i.detail != null ==> i.detail != j.detail)
  }

  /** The reviews in a course's review list; null elements are skipped. */
  function ListedReviews(c: Course): (r: set<Review>)
    reads c`reviews
    ensures forall x :: x in r ==> c.reviews.Some? && x in c.reviews.value
    ensures c.reviews.Some? ==> forall x :: x in c.reviews.value && x != null ==> x in r
  {
    if c.reviews.None? then {} else set x: Review | x in c.reviews.value
  }

  /**
   * The `course_student` join relation between a course and a student: both
   * sides map the join table as owners, so either side's collection naming
   * the other makes a row.
   */
  predicate Linked(c: Course, s: Student)
    reads c`students, s`courses
  {
    (c.students.Some? && s in c.students.value) || (s.courses.Some? && c in s.courses.value)
  }

  /**
   * An instructor of `reached` that is not in `stored` holds a detail that
   * another instructor, of `stored` or of `reached`, also holds.
   */
  predicate DetailClashWith(stored: set<Instructor>, reached: set<Instructor>)
    reads stored`detail, reached`detail
  {
    exists i :: i in reached && i !in stored && i.detail != null
      && ((exists j :: j in stored && j.detail == i.detail)
          || (exists j :: j in reached && j != i && j.detail == i.detail))
  }

  /**
   * Storing a cascade-closed set of entities that raises no detail clash
   * keeps the integrity constraints: every link of a new row leads to a row
   * stored before or in the same persist.
   */
  lemma {:induction false} ConsistentAfterStoring(ins: set<Instructor>, ds: set<InstructorDetail>, cs: set<Course>, reached: set<Node>)
    requires ConsistentAmong(ins, ds, cs)
    requires Closed(reached) && !DetailClashWith(ins, InstructorsOf(reached))
    ensures ConsistentAmong(ins + InstructorsOf(reached), ds + DetailsOf(reached), cs + CoursesOf(reached))
  {
    var ins', ds', cs' := ins + InstructorsOf(reached), ds + DetailsOf(reached), cs + CoursesOf(reached);
    forall c | c in cs' && c.instructor != null
      ensures c.instructor in ins'
    {
      if c !in cs {
        assert CourseNode(c) in reached;
        assert InstructorNode(c.instructor) in CascadeTargets(CourseNode(c));
        assert c.instructor in InstructorsOf(reached);
      }
    }
    forall i | i in ins' && i.detail != null
      ensures i.detail in ds'
    {
      if i !in ins {
        assert InstructorNode(i) in reached;
        assert DetailNode(i.detail) in CascadeTargets(InstructorNode(i));
        assert i.detail in DetailsOf(reached);
      }
    }
    forall i, j | i in ins' && j in ins' && i != j && i.detail != null
      ensures i.detail != j.detail
    {
      if i !in ins {
        assert i in InstructorsOf(reached);
      } else if j !in ins {
        assert j in InstructorsOf(reached);
      }
    }
  }

  /**
   * Deleting an instructor that no course names, together with its detail,
   * which no other instructor holds, keeps the integrity constraints.
   */
  lemma ConsistentAfterRemovingInstructor(ins: set<Instructor>, ds: set<InstructorDetail>, cs: set<Course>, i: Instructor)
    requires ConsistentAmong(ins, ds, cs)
    requires forall c :: c in cs ==> c.instructor != i
    requires i.detail != null ==> forall j :: j in ins && j != i ==> j.detail != i.detail
    ensures ConsistentAmong(ins - {i}, if i.detail == null then ds else ds - {i.detail}, cs)
  {
  }

  /** Deleting a detail that no instructor holds keeps the integrity constraints. */
  lemma ConsistentAfterRemovingDetail(ins: set<Instructor>, ds: set<InstructorDetail>, cs: set<Course>, d: InstructorDetail)
    requires ConsistentAmong(ins, ds, cs)
    requires forall j :: j in ins ==> j.detail != d
    ensures ConsistentAmong(ins, ds - {d}, cs)
  {
  }

  /** Deleting courses keeps the integrity constraints: nothing references a course. */
  lemma ConsistentAfterRemovingCourses(ins: set<Instructor>, ds: set<InstructorDetail>, cs: set<Course>, cs': set<Course>)
    requires ConsistentAmong(ins, ds, cs) && cs' <= cs
    ensures ConsistentAmong(ins, ds, cs')
  {
  }

  /** Adding a set of nodes to the nodes of five sets adds each kind's entities to its set. */
  lemma NodesOfAdd(ins: set<Instructor>, ds: set<InstructorDetail>, cs: set<Course>, rs: set<Review>, ss: set<Student>, u: set<Node>)
    ensures NodesOf(ins, ds, cs, rs, ss) + u
         == NodesOf(ins + InstructorsOf(u), ds + DetailsOf(u), cs + CoursesOf(u), rs + ReviewsOf(u), ss + StudentsOf(u))
  {
    forall n | n in u
      ensures n in NodesOf(ins + InstructorsOf(u), ds + DetailsOf(u), cs + CoursesOf(u), rs + ReviewsOf(u), ss + StudentsOf(u))
    {
      match n
      case InstructorNode(i) => assert i in InstructorsOf(u);
      case DetailNode(d) => assert d in DetailsOf(u);
      case CourseNode(c) => assert c in CoursesOf(u);
      case ReviewNode(r) => assert r in ReviewsOf(u);
      case StudentNode(s) => assert s in StudentsOf(u);
    }
  }

  /** Each kind's entities among the nodes of five sets are that kind's set. */
  lemma InstructorsOfNodes(ins: set<Instructor>, ds: set<InstructorDetail>, cs: set<Course>, rs: set<Review>, ss: set<Student>)
    ensures InstructorsOf(NodesOf(ins, ds, cs, rs, ss)) == ins
  {
    forall x | x in ins ensures x in InstructorsOf(NodesOf(ins, ds, cs, rs, ss)) {
      assert InstructorNode(x) in NodesOf(ins, ds, cs, rs, ss);
    }
  }

  lemma DetailsOfNodes(ins: set<Instructor>, ds: set<InstructorDetail>, cs: set<Course>, rs: set<Review>, ss: set<Student>)
    ensures DetailsOf(NodesOf(ins, ds, cs, rs, ss)) == ds
  {
    forall x | x in ds ensures x in DetailsOf(NodesOf(ins, ds, cs, rs, ss)) {
      assert DetailNode(x) in NodesOf(ins, ds, cs, rs, ss);
    }
  }

  lemma CoursesOfNodes(ins: set<Instructor>, ds: set<InstructorDetail>, cs: set<Course>, rs: set<Review>, ss: set<Student>)
    ensures CoursesOf(NodesOf(ins, ds, cs, rs, ss)) == cs
  {
    forall x | x in cs ensures x in CoursesOf(NodesOf(ins, ds, cs, rs, ss)) {
      assert CourseNode(x) in NodesOf(ins, ds, cs, rs, ss);
    }
  }

  lemma ReviewsOfNodes(ins: set<Instructor>, ds: set<InstructorDetail>, cs: set<Course>, rs: set<Review>, ss: set<Student>)
    ensures ReviewsOf(NodesOf(ins, ds, cs, rs, ss)) == rs
  {
    forall x | x in rs ensures x in ReviewsOf(NodesOf(ins, ds, cs, rs, ss)) {
      assert ReviewNode(x) in NodesOf(ins, ds, cs, rs, ss);
    }
  }

  lemma StudentsOfNodes(ins: set<Instructor>, ds: set<InstructorDetail>, cs: set<Course>, rs: set<Review>, ss: set<Student>)
    ensures StudentsOf(NodesOf(ins, ds, cs, rs, ss)) == ss
  {
    forall x | x in ss ensures x in StudentsOf(NodesOf(ins, ds, cs, rs, ss)) {
      assert StudentNode(x) in NodesOf(ins, ds, cs, rs, ss);
    }
  }

  /** The nodes of five sets determine the five sets. */
  lemma NodesOfInjective(
    ins: set<Instructor>, ds: set<InstructorDetail>, cs: set<Course>, rs: set<Review>, ss: set<Student>,
    ins': set<Instructor>, ds': set<InstructorDetail>, cs': set<Course>, rs': set<Review>, ss': set<Student>)
    requires NodesOf(ins, ds, cs, rs, ss) == NodesOf(ins', ds', cs', rs', ss')
    ensures ins == ins' && ds == ds' && cs == cs' && rs == rs' && ss == ss'
  {
    InstructorsOfNodes(ins, ds, cs, rs, ss);
    InstructorsOfNodes(ins', ds', cs', rs', ss');
    DetailsOfNodes(ins, ds, cs, rs, ss);
    DetailsOfNodes(ins', ds', cs', rs', ss');
    CoursesOfNodes(ins, ds, cs, rs, ss);
    CoursesOfNodes(ins', ds', cs', rs', ss');
    ReviewsOfNodes(ins, ds, cs, rs, ss);
    ReviewsOfNodes(ins', ds', cs', rs', ss');
    StudentsOfNodes(ins, ds, cs, rs, ss);
    StudentsOfNodes(ins', ds', cs', rs', ss');
  }

  /** Adding one entity to one of the five sets adds exactly its node. */
  lemma NodesOfInstructors(ins: set<Instructor>, ds: set<InstructorDetail>, cs: set<Course>, rs: set<Review>, ss: set<Student>, x: Instructor)
    ensures NodesOf(ins + {x}, ds, cs, rs, ss) == NodesOf(ins, ds, cs, rs, ss) + {InstructorNode(x)}
  {
    assert (set y | y in ins + {x} :: InstructorNode(y)) == (set y | y in ins :: InstructorNode(y)) + {InstructorNode(x)};
  }

  lemma NodesOfDetails(ins: set<Instructor>, ds: set<InstructorDetail>, cs: set<Course>, rs: set<Review>, ss: set<Student>, x: InstructorDetail)
    ensures NodesOf(ins, ds + {x}, cs, rs, ss) == NodesOf(ins, ds, cs, rs, ss) + {DetailNode(x)}
  {
    assert (set y | y in ds + {x} :: DetailNode(y)) == (set y | y in ds :: DetailNode(y)) + {DetailNode(x)};
  }

  lemma NodesOfCourses(ins: set<Instructor>, ds: set<InstructorDetail>, cs: set<Course>, rs: set<Review>, ss: set<Student>, x: Course)
    ensures NodesOf(ins, ds, cs + {x}, rs, ss) == NodesOf(ins, ds, cs, rs, ss) + {CourseNode(x)}
  {
    assert (set y | y in cs + {x} :: CourseNode(y)) == (set y | y in cs :: CourseNode(y)) + {CourseNode(x)};
  }

  lemma NodesOfReviews(ins: set<Instructor>, ds: set<InstructorDetail>, cs: set<Course>, rs: set<Review>, ss: set<Student>, x: Review)
    ensures NodesOf(ins, ds, cs, rs + {x}, ss) == NodesOf(ins, ds, cs, rs, ss) + {ReviewNode(x)}
  {
    assert (set y | y in rs + {x} :: ReviewNode(y)) == (set y | y in rs :: ReviewNode(y)) + {ReviewNode(x)};
  }

  lemma NodesOfStudents(ins: set<Instructor>, ds: set<InstructorDetail>, cs: set<Course>, rs: set<Review>, ss: set<Student>, x: Student)
    ensures NodesOf(ins, ds, cs, rs, ss + {x}) == NodesOf(ins, ds, cs, rs, ss) + {StudentNode(x)}
  {
    assert (set y | y in ss + {x} :: StudentNode(y)) == (set y | y in ss :: StudentNode(y)) + {StudentNode(x)};
  }

  class EntityStore {
    var instructors: map<int, Instructor>
    var details: map<int, InstructorDetail>
    var courses: map<int, Course>
    var reviews: map<int, Review>
    var students: map<int, Student>
    /** The next value of each kind's id sequence. */
    var instructorSeq: int
    var detailSeq: int
    var courseSeq: int
    var reviewSeq: int
    var studentSeq: int

    /** Every entity is stored under its own id, and every id was drawn from its sequence. */
    ghost predicate Valid()
      reads this, instructors.Values`id, details.Values`id, courses.Values`id, reviews.Values`id, students.Values`id
    {
      InstructorsValid() && DetailsValid() && CoursesValid() && ReviewsValid() && StudentsValid()
    }

    ghost predicate InstructorsValid()
      reads this`instructors, this`instructorSeq, instructors.Values`id
    {
      && 0 < instructorSeq
      && forall k :: k in instructors ==> instructors[k].id == k && 0 < k < instructorSeq
    }

    ghost predicate DetailsValid()
      reads this`details, this`detailSeq, details.Values`id
    {
      && 0 < detailSeq
      && forall k :: k in details ==> details[k].id == k && 0 < k < detailSeq
    }

    ghost predicate CoursesValid()
      reads this`courses, this`courseSeq, courses.Values`id
    {
      && 0 < courseSeq
      && forall k :: k in courses ==> courses[k].id == k && 0 < k < courseSeq
    }

    ghost predicate ReviewsValid()
      reads this`reviews, this`reviewSeq, reviews.Values`id
    {
      && 0 < reviewSeq
      && forall k :: k in reviews ==> reviews[k].id == k && 0 < k < reviewSeq
    }

    ghost predicate StudentsValid()
      reads this`students, this`studentSeq, students.Values`id
    {
      && 0 < studentSeq
      && forall k :: k in students ==> students[k].id == k && 0 < k < studentSeq
    }

    /** The schema's integrity constraints hold over the stored rows. */
    ghost predicate Consistent()
      reads this`instructors, this`details, this`courses, instructors.Values`detail, courses.Values`instructor
    {
      ConsistentAmong(instructors.Values, details.Values, courses.Values)
    }

    constructor ()
      ensures Valid() && Consistent()
      ensures instructors == map[] && details == map[] && courses == map[] && reviews == map[] && students == map[]
      ensures instructorSeq == 1 && detailSeq == 1 && courseSeq == 1 && reviewSeq == 1 && studentSeq == 1
      ensures StoredNodes() == {}
    {
      instructors, details, courses, reviews, students := map[], map[], map[], map[], map[];
      instructorSeq, detailSeq, courseSeq, reviewSeq, studentSeq := 1, 1, 1, 1, 1;
      assert NodesOf({}, {}, {}, {}, {}) == {};
    }

    /** `i` is the instructor stored under its own id: a managed instructor. */
    predicate HoldsInstructor(i: Instructor)
      reads this`instructors, i`id
    {
      i.id in instructors && instructors[i.id] == i
    }

    /** `d` is the detail stored under its own id. */
    predicate HoldsDetail(d: InstructorDetail)
      reads this`details, d`id
    {
      d.id in details && details[d.id] == d
    }

    /** `c` is the course stored under its own id. */
    predicate HoldsCourse(c: Course)
      reads this`courses, c`id
    {
      c.id in courses && courses[c.id] == c
    }

    /** `r` is the review stored under its own id. */
    predicate HoldsReview(r: Review)
      reads this`reviews, r`id
    {
      r.id in reviews && reviews[r.id] == r
    }

    /** `s` is the student stored under its own id. */
    predicate HoldsStudent(s: Student)
      reads this`students, s`id
    {
      s.id in students && students[s.id] == s
    }

    /** A stored course names `i` as its instructor: its foreign key would dangle if `i` went. */
    predicate CourseNames(i: Instructor)
      reads this`courses, courses.Values`instructor
    {
      exists k :: k in courses && courses[k].instructor == i
    }

    /** A stored instructor holds `d` as its detail: its foreign key would dangle if `d` went. */
    predicate InstructorNames(d: InstructorDetail)
      reads this`instructors, instructors.Values`detail
    {
      exists k :: k in instructors && instructors[k].detail == d
    }

    /** Another stored instructor holds `i`'s detail, which the REMOVE cascade from `i` would delete. */
    predicate DetailShared(i: Instructor)
      reads this`instructors, i`detail, instructors.Values`detail
    {
      i.detail != null && exists k :: k in instructors && instructors[k] != i && instructors[k].detail == i.detail
    }

    /** The REMOVE cascade from `i` reaches a detail that already has an id. */
    predicate DetailDetached(i: Instructor)
      reads this`details, i`detail, if i.detail == null then {} else {i.detail}
    {
      i.detail != null && !HoldsDetail(i.detail) && i.detail.id != 0
    }

    /** The REMOVE cascade from `c` reaches a review that already has an id. */
    predicate ReviewDetached(c: Course)
      reads this`reviews, c`reviews, ListedReviews(c)`id
    {
      exists r :: r in ListedReviews(c) && !HoldsReview(r) && r.id != 0
    }

    /** Under the integrity constraints, a stored instructor's detail is stored and held by it alone. */
    lemma DetailOfStoredInstructor(i: Instructor)
      requires Valid() && Consistent() && HoldsInstructor(i)
      ensures !DetailDetached(i) && !DetailShared(i)
    {
      assert i in instructors.Values;
      if i.detail != null {
        var k := KeyOf(details, i.detail);
        assert details[k].id == k;
      }
    }

    /** A stored node's entity is held under its own id. */
    lemma HeldWhenStored(n: Node)
      requires Valid() && n in StoredNodes()
      ensures n.InstructorNode? ==> HoldsInstructor(n.instructor)
      ensures n.DetailNode? ==> HoldsDetail(n.detail)
      ensures n.CourseNode? ==> HoldsCourse(n.course)
      ensures n.ReviewNode? ==> HoldsReview(n.review)
      ensures n.StudentNode? ==> HoldsStudent(n.student)
    {
      match n
      case InstructorNode(i) =>
        var k := KeyOf(instructors, i);
        assert instructors[k].id == k;
      case CourseNode(c) =>
        var k := KeyOf(courses, c);
        assert courses[k].id == k;
      case DetailNode(d) =>
        var k := KeyOf(details, d);
        assert details[k].id == k;
      case ReviewNode(r) =>
        var k := KeyOf(reviews, r);
        assert reviews[k].id == k;
      case StudentNode(s) =>
        var k := KeyOf(students, s);
        assert students[k].id == k;
    }

    /** Storing the new instructors among `reached` would break the unique detail join column. */
    predicate DetailClash(reached: set<Node>)
      reads this`instructors, instructors.Values`detail, InstructorsOf(reached)`detail
    {
      DetailClashWith(instructors.Values, InstructorsOf(reached))
    }

    /** The current tables and sequences. */
    function Snapshot(): Tables
      reads this`instructors, this`details, this`courses, this`reviews, this`students
      reads this`instructorSeq, this`detailSeq, this`courseSeq, this`reviewSeq, this`studentSeq
    {
      Tables(instructors, details, courses, reviews, students, instructorSeq, detailSeq, courseSeq, reviewSeq, studentSeq)
    }

    /** The next value of the sequence of `n`'s kind. */
    function NextId(n: Node): int
      reads this`instructorSeq, this`detailSeq, this`courseSeq, this`reviewSeq, this`studentSeq
    {
      match n
      case InstructorNode(_) => instructorSeq
      case DetailNode(_) => detailSeq
      case CourseNode(_) => courseSeq
      case ReviewNode(_) => reviewSeq
      case StudentNode(_) => studentSeq
    }

    /** Every managed entity, as a node of the entity graph. */
    function StoredNodes(): set<Node>
      reads this`instructors, this`details, this`courses, this`reviews, this`students
    {
      NodesOf(instructors.Values, details.Values, courses.Values, reviews.Values, students.Values)
    }

    /**
     * `em.persist(root)`: persists `root` and, through the PERSIST cascade,
     * every entity reachable from it, in a persistence context of its own:
     * each reached entity draws the next id of its sequence and is stored
     * under it. A reached entity that already has an id is detached in that
     * context and makes the call fail, and so does a new instructor whose
     * detail another instructor already holds; a failed call changes nothing.
     * `heap` is a cascade-closed part of the object graph holding `root`.
     */
    method Persist(root: Node, ghost heap: set<Node>) returns (outcome: Outcome)
      requires Valid() && root in heap && Closed(heap)
      modifies this`instructors, this`details, this`courses, this`reviews, this`students
      modifies this`instructorSeq, this`detailSeq, this`courseSeq, this`reviewSeq, this`studentSeq
      modifies InstructorsOf(Reachable(root, heap))`id, DetailsOf(Reachable(root, heap))`id, CoursesOf(Reachable(root, heap))`id
      modifies ReviewsOf(Reachable(root, heap))`id, StudentsOf(Reachable(root, heap))`id
      ensures Valid()
      ensures outcome.Pass? <==> old(!HasDetached(Reachable(root, heap)) && !DetailClash(Reachable(root, heap)))
      ensures outcome == Fail(DetachedEntity) <==> old(HasDetached(Reachable(root, heap)))
      ensures outcome == Fail(ConstraintViolation) <==>
                old(!HasDetached(Reachable(root, heap)) && DetailClash(Reachable(root, heap)))
      ensures outcome.Fail? ==> unchanged(this)
      ensures outcome.Fail? ==> unchanged(InstructorsOf(heap), DetailsOf(heap), CoursesOf(heap), ReviewsOf(heap), StudentsOf(heap))
      ensures outcome.Pass? ==> StoredNodes() == old(StoredNodes() + Reachable(root, heap))
      ensures Extends(old(Snapshot()), Snapshot())
      ensures old(Consistent()) ==> Consistent()
    {
      var cascade := Reachable(root, heap);
      if HasDetached(cascade) {
        return Fail(DetachedEntity);
      }
      if DetailClash(cascade) {
        return Fail(ConstraintViolation);
      }
      outcome := Pass;
      ReachableClosed(root, heap);
      StoreAll(cascade);
    }

    /**
     * Stores every entity of a cascade-closed set that raises no detail
     * clash: the entities not stored yet draw their ids; the integrity
     * constraints are kept.
     */
    method StoreAll(reached: set<Node>)
      requires Valid() && Closed(reached) && !DetailClash(reached)
      modifies this`instructors, this`details, this`courses, this`reviews, this`students
      modifies this`instructorSeq, this`detailSeq, this`courseSeq, this`reviewSeq, this`studentSeq
      modifies InstructorsOf(reached)`id, DetailsOf(reached)`id, CoursesOf(reached)`id, ReviewsOf(reached)`id, StudentsOf(reached)`id
      ensures Valid()
      ensures StoredNodes() == old(StoredNodes()) + reached
      ensures Extends(old(Snapshot()), Snapshot())
      ensures old(Consistent()) ==> Consistent()
    {
      ghost var ins, ds, cs := instructors.Values, details.Values, courses.Values;
      ghost var wasConsistent := ConsistentAmong(ins, ds, cs);
      if wasConsistent {
        ConsistentAfterStoring(ins, ds, cs, reached);
      }
      StoreReached(reached);
    }

    /** Stores the entities of `reached` not stored yet; each table's entities grow by that kind's reached ones. */
    method StoreReached(reached: set<Node>)
      requires Valid()
      modifies this`instructors, this`details, this`courses, this`reviews, this`students
      modifies this`instructorSeq, this`detailSeq, this`courseSeq, this`reviewSeq, this`studentSeq
      modifies InstructorsOf(reached)`id, DetailsOf(reached)`id, CoursesOf(reached)`id, ReviewsOf(reached)`id, StudentsOf(reached)`id
      ensures Valid()
      ensures StoredNodes() == old(StoredNodes()) + reached
      ensures Extends(old(Snapshot()), Snapshot())
      ensures instructors.Values == old(instructors.Values) + InstructorsOf(reached)
      ensures details.Values == old(details.Values) + DetailsOf(reached)
      ensures courses.Values == old(courses.Values) + CoursesOf(reached)
    {
      ghost var ins, ds, cs, rs, ss := instructors.Values, details.Values, courses.Values, reviews.Values, students.Values;
      AssignIds(reached - StoredNodes());
      NodesOfAdd(ins, ds, cs, rs, ss, reached);
      NodesOfInjective(instructors.Values, details.Values, courses.Values, reviews.Values, students.Values,
        ins + InstructorsOf(reached), ds + DetailsOf(reached), cs + CoursesOf(reached), rs + ReviewsOf(reached), ss + StudentsOf(reached));
    }

    /**
     * `em.remove(i)` for an instructor. Null and detached instructors are
     * rejected, a new one is ignored. The REMOVE cascade (ALL on the detail)
     * deletes the stored detail with the instructor. The delete fails when a
     * stored course still names the instructor, or when another instructor
     * holds the same detail, since a foreign key would dangle.
     */
    method RemoveInstructor(i: Instructor?) returns (outcome: Outcome)
      requires Valid()
      modifies this`instructors, this`details
      ensures Valid()
      ensures i == null ==> outcome == Fail(IllegalArgument)
      ensures i != null && !old(HoldsInstructor(i)) ==> outcome == (if i.id == 0 then Pass else Fail(IllegalArgument))
      ensures i != null && old(HoldsInstructor(i)) ==>
                outcome == (if old(DetailDetached(i)) then Fail(IllegalArgument)
                            else if old(CourseNames(i) || DetailShared(i)) then Fail(ConstraintViolation)
                            else Pass)
      ensures i != null && old(HoldsInstructor(i)) && outcome.Pass? ==>
                && instructors == old(instructors) - {i.id}
                && details == old(if i.detail != null && HoldsDetail(i.detail) then details - {i.detail.id} else details)
      ensures i == null || !old(HoldsInstructor(i)) || outcome.Fail? ==> instructors == old(instructors) && details == old(details)
      ensures old(Consistent()) ==> Consistent()
    {
      if i == null {
        return Fail(IllegalArgument);
      }
      if !HoldsInstructor(i) {
        return if i.id == 0 then Pass else Fail(IllegalArgument);
      }
      if DetailDetached(i) {
        return Fail(IllegalArgument);
      }
      if CourseNames(i) || DetailShared(i) {
        return Fail(ConstraintViolation);
      }
      outcome := Pass;
      ghost var wasConsistent := Consistent();
      ghost var ins, ds, cs := instructors.Values, details.Values, courses.Values;
      forall k | k in instructors && k != i.id
        ensures instructors[k] != i && (i.detail != null ==> instructors[k].detail != i.detail)
      {
        assert instructors[k].id == k;
      }
      forall c | c in cs
        ensures c.instructor != i
      {
        var k := KeyOf(courses, c);
        assert courses[k].instructor != i;
      }
      ValuesOfRemove(instructors, i.id);
      instructors := instructors - {i.id};
      var d := i.detail;
      if d != null && HoldsDetail(d) {
        forall k | k in details && k != d.id
          ensures details[k] != d
        {
          assert details[k].id == k;
        }
        ValuesOfRemove(details, d.id);
        details := details - {d.id};
      }
      if wasConsistent {
        ConsistentAfterRemovingInstructor(ins, ds, cs, i);
      }
    }

    /**
     * `em.remove(d)` for a detail. Null and detached details are rejected, a
     * new one is ignored; the back-reference to the instructor does not
     * cascade a removal. The delete fails while a stored instructor holds the
     * detail.
     */
    method RemoveDetail(d: InstructorDetail?) returns (outcome: Outcome)
      requires Valid()
      modifies this`details
      ensures Valid()
      ensures d == null ==> outcome == Fail(IllegalArgument)
      ensures d != null && !old(HoldsDetail(d)) ==> outcome == (if d.id == 0 then Pass else Fail(IllegalArgument))
      ensures d != null && old(HoldsDetail(d)) ==> outcome == (if old(InstructorNames(d)) then Fail(ConstraintViolation) else Pass)
      ensures details == (if d != null && old(HoldsDetail(d)) && outcome.Pass? then old(details) - {d.id} else old(details))
      ensures old(Consistent()) ==> Consistent()
    {
      if d == null {
        return Fail(IllegalArgument);
      }
      if !HoldsDetail(d) {
        return if d.id == 0 then Pass else Fail(IllegalArgument);
      }
      if InstructorNames(d) {
        return Fail(ConstraintViolation);
      }
      outcome := Pass;
      ghost var wasConsistent := Consistent();
      ghost var ins, ds, cs := instructors.Values, details.Values, courses.Values;
      forall k | k in details && k != d.id
        ensures details[k] != d
      {
        assert details[k].id == k;
      }
      forall j | j in ins
        ensures j.detail != d
      {
        var k := KeyOf(instructors, j);
        assert instructors[k].detail != d;
      }
      ValuesOfRemove(details, d.id);
      details := details - {d.id};
      if wasConsistent {
        ConsistentAfterRemovingDetail(ins, ds, cs, d);
      }
    }

    /**
     * `em.remove(c)` for a course. Null and detached courses are rejected, a
     * new one is ignored. The REMOVE cascade (ALL on the review list) deletes
     * the stored reviews of the list with the course, and a detached review in
     * the list is rejected. The course's join rows go with it; its instructor
     * and its students stay.
     */
    method RemoveCourse(c: Course?) returns (outcome: Outcome)
      requires Valid()
      modifies this`courses, this`reviews
      ensures Valid()
      ensures c == null ==> outcome == Fail(IllegalArgument)
      ensures c != null && !old(HoldsCourse(c)) ==> outcome == (if c.id == 0 then Pass else Fail(IllegalArgument))
      ensures c != null && old(HoldsCourse(c)) ==> outcome == (if old(ReviewDetached(c)) then Fail(IllegalArgument) else Pass)
      ensures c != null && old(HoldsCourse(c)) && outcome.Pass? ==>
                && courses == old(courses) - {c.id}
                && reviews == old(map k | k in reviews && reviews[k] !in ListedReviews(c) :: reviews[k])
      ensures c == null || !old(HoldsCourse(c)) || outcome.Fail? ==> courses == old(courses) && reviews == old(reviews)
      ensures old(Consistent()) ==> Consistent()
    {
      if c == null {
        return Fail(IllegalArgument);
      }
      if !HoldsCourse(c) {
        return if c.id == 0 then Pass else Fail(IllegalArgument);
      }
      if ReviewDetached(c) {
        return Fail(IllegalArgument);
      }
      outcome := Pass;
      ghost var wasConsistent := Consistent();
      ghost var ins, ds, cs := instructors.Values, details.Values, courses.Values;
      var listed := ListedReviews(c);
      courses := courses - {c.id};
      reviews := map k | k in reviews && reviews[k] !in listed :: reviews[k];
      if wasConsistent {
        ValuesOfRestrict(old(courses), courses);
        ConsistentAfterRemovingCourses(ins, ds, cs, courses.Values);
      }
    }

    /**
     * `em.remove(s)` for a student. Null and detached students are rejected,
     * a new one is ignored. The student's join rows go with it; its courses
     * stay.
     */
    method RemoveStudent(s: Student?) returns (outcome: Outcome)
      requires Valid()
      modifies this`students
      ensures Valid()
      ensures s == null ==> outcome == Fail(IllegalArgument)
      ensures s != null ==> outcome == (if old(HoldsStudent(s)) || s.id == 0 then Pass else Fail(IllegalArgument))
      ensures students == (if s != null && old(HoldsStudent(s)) then old(students) - {s.id} else old(students))
    {
      if s == null {
        return Fail(IllegalArgument);
      }
      if !HoldsStudent(s) {
        return if s.id == 0 then Pass else Fail(IllegalArgument);
      }
      students := students - {s.id};
      return Pass;
    }

    /** Draws a fresh id for every entity of `pending`, one at a time, and stores it under that id. */
    method AssignIds(pending: set<Node>)
      requires Valid() && pending !! StoredNodes()
      modifies this`instructors, this`details, this`courses, this`reviews, this`students
      modifies this`instructorSeq, this`detailSeq, this`courseSeq, this`reviewSeq, this`studentSeq
      modifies InstructorsOf(pending)`id, DetailsOf(pending)`id, CoursesOf(pending)`id, ReviewsOf(pending)`id, StudentsOf(pending)`id
      ensures Valid()
      ensures StoredNodes() == old(StoredNodes()) + pending
      ensures Extends(old(Snapshot()), Snapshot())
    {
      var todo := pending;
      ghost var done: set<Node> := {};
      while todo != {}
        invariant todo <= pending && done == pending - todo
        invariant Valid()
        invariant StoredNodes() == old(StoredNodes()) + done
        invariant Extends(old(Snapshot()), Snapshot())
        decreases todo
      {
        var n :| n in todo;
        assert InstructorsOf({n}) <= InstructorsOf(pending) && DetailsOf({n}) <= DetailsOf(pending);
        assert CoursesOf({n}) <= CoursesOf(pending) && ReviewsOf({n}) <= ReviewsOf(pending) && StudentsOf({n}) <= StudentsOf(pending);
        AssignNext(n, old(Snapshot()));
        todo := todo - {n};
        done := done + {n};
      }
    }

    /** One step of `AssignIds`: stores `n` and keeps the tables an extension of `start`. */
    method AssignNext(n: Node, ghost start: Tables)
      requires Valid() && n !in StoredNodes() && Extends(start, Snapshot())
      modifies this`instructors, this`details, this`courses, this`reviews, this`students
      modifies this`instructorSeq, this`detailSeq, this`courseSeq, this`reviewSeq, this`studentSeq
      modifies InstructorsOf({n})`id, DetailsOf({n})`id, CoursesOf({n})`id, ReviewsOf({n})`id, StudentsOf({n})`id
      ensures Valid() && StoredNodes() == old(StoredNodes()) + {n} && Extends(start, Snapshot())
    {
      ghost var before := Snapshot();
      AssignId(n);
      ExtendsTransitive(start, before, Snapshot());
    }

    /** Draws the next id of `n`'s sequence for it and stores it under that id. */
    method AssignId(n: Node)
      requires Valid() && n !in StoredNodes()
      modifies this`instructors, this`details, this`courses, this`reviews, this`students
      modifies this`instructorSeq, this`detailSeq, this`courseSeq, this`reviewSeq, this`studentSeq
      modifies InstructorsOf({n})`id, DetailsOf({n})`id, CoursesOf({n})`id, ReviewsOf({n})`id, StudentsOf({n})`id
      ensures Valid()
      ensures StoredNodes() == old(StoredNodes()) + {n}
      ensures IdOf(n) == old(NextId(n)) && NextId(n) == old(NextId(n)) + 1
      ensures !n.InstructorNode? ==> instructorSeq == old(instructorSeq)
      ensures !n.DetailNode? ==> detailSeq == old(detailSeq)
      ensures !n.CourseNode? ==> courseSeq == old(courseSeq)
      ensures !n.ReviewNode? ==> reviewSeq == old(reviewSeq)
      ensures !n.StudentNode? ==> studentSeq == old(studentSeq)
      ensures Extends(old(Snapshot()), Snapshot())
    {
      match n
      case InstructorNode(i) =>
        assert i in InstructorsOf({n});
        StoreInstructor(i);
      case DetailNode(d) =>
        assert d in DetailsOf({n});
        StoreDetail(d);
      case CourseNode(c) =>
        assert c in CoursesOf({n});
        StoreCourse(c);
      case ReviewNode(r) =>
        assert r in ReviewsOf({n});
        StoreReview(r);
      case StudentNode(s) =>
        assert s in StudentsOf({n});
        StoreStudent(s);
    }

    /** Stores the unstored instructor `i`, keeping every table valid. */
    method StoreInstructor(i: Instructor)
      requires Valid() && InstructorNode(i) !in StoredNodes()
      modifies this`instructors, this`instructorSeq, i`id
      ensures Valid()
      ensures StoredNodes() == old(StoredNodes()) + {InstructorNode(i)}
      ensures i.id == old(instructorSeq) && instructorSeq == old(instructorSeq) + 1
      ensures instructors == old(instructors)[i.id := i]
      ensures Extends(old(Snapshot()), Snapshot())
    {
      assert i !in instructors.Values;
      AssignInstructorId(i);
    }

    /** Stores the unstored detail `d`, keeping every table valid. */
    method StoreDetail(d: InstructorDetail)
      requires Valid() && DetailNode(d) !in StoredNodes()
      modifies this`details, this`detailSeq, d`id
      ensures Valid()
      ensures StoredNodes() == old(StoredNodes()) + {DetailNode(d)}
      ensures d.id == old(detailSeq) && detailSeq == old(detailSeq) + 1
      ensures details == old(details)[d.id := d]
      ensures Extends(old(Snapshot()), Snapshot())
    {
      assert d !in details.Values;
      AssignDetailId(d);
    }

    /** Stores the unstored course `c`, keeping every table valid. */
    method StoreCourse(c: Course)
      requires Valid() && CourseNode(c) !in StoredNodes()
      modifies this`courses, this`courseSeq, c`id
      ensures Valid()
      ensures StoredNodes() == old(StoredNodes()) + {CourseNode(c)}
      ensures c.id == old(courseSeq) && courseSeq == old(courseSeq) + 1
      ensures courses == old(courses)[c.id := c]
      ensures Extends(old(Snapshot()), Snapshot())
    {
      assert c !in courses.Values;
      AssignCourseId(c);
    }

    /** Stores the unstored review `r`, keeping every table valid. */
    method StoreReview(r: Review)
      requires Valid() && ReviewNode(r) !in StoredNodes()
      modifies this`reviews, this`reviewSeq, r`id
      ensures Valid()
      ensures StoredNodes() == old(StoredNodes()) + {ReviewNode(r)}
      ensures r.id == old(reviewSeq) && reviewSeq == old(reviewSeq) + 1
      ensures reviews == old(reviews)[r.id := r]
      ensures Extends(old(Snapshot()), Snapshot())
    {
      assert r !in reviews.Values;
      AssignReviewId(r);
    }

    /** Stores the unstored student `s`, keeping every table valid. */
    method StoreStudent(s: Student)
      requires Valid() && StudentNode(s) !in StoredNodes()
      modifies this`students, this`studentSeq, s`id
      ensures Valid()
      ensures StoredNodes() == old(StoredNodes()) + {StudentNode(s)}
      ensures s.id == old(studentSeq) && studentSeq == old(studentSeq) + 1
      ensures students == old(students)[s.id := s]
      ensures Extends(old(Snapshot()), Snapshot())
    {
      assert s !in students.Values;
      AssignStudentId(s);
    }

    /** Stores `i` under the next id of the instructor sequence and advances the sequence. */
    method AssignInstructorId(i: Instructor)
      requires InstructorsValid() && i !in instructors.Values
      modifies this`instructors, this`instructorSeq, i`id
      ensures InstructorsValid()
      ensures StoredNodes() == old(StoredNodes()) + {InstructorNode(i)}
      ensures i.id == old(instructorSeq) && instructorSeq == old(instructorSeq) + 1
      ensures instructors == old(instructors)[i.id := i]
    {
      NodesOfInstructors(instructors.Values, details.Values, courses.Values, reviews.Values, students.Values, i);
      forall k | k in instructors
        ensures instructors[k] != i
      {
        assert instructors[k] in instructors.Values;
      }
      ValuesOfUpdate(instructors, instructorSeq, i);
      i.SetId(instructorSeq);
      instructors := instructors[instructorSeq := i];
      instructorSeq := instructorSeq + 1;
    }

    /** Stores `d` under the next id of the detail sequence and advances the sequence. */
    method AssignDetailId(d: InstructorDetail)
      requires DetailsValid() && d !in details.Values
      modifies this`details, this`detailSeq, d`id
      ensures DetailsValid()
      ensures StoredNodes() == old(StoredNodes()) + {DetailNode(d)}
      ensures d.id == old(detailSeq) && detailSeq == old(detailSeq) + 1
      ensures details == old(details)[d.id := d]
    {
      NodesOfDetails(instructors.Values, details.Values, courses.Values, reviews.Values, students.Values, d);
      forall k | k in details
        ensures details[k] != d
      {
        assert details[k] in details.Values;
      }
      ValuesOfUpdate(details, detailSeq, d);
      d.SetId(detailSeq);
      details := details[detailSeq := d];
      detailSeq := detailSeq + 1;
    }

    /** Stores `c` under the next id of the course sequence and advances the sequence. */
    method AssignCourseId(c: Course)
      requires CoursesValid() && c !in courses.Values
      modifies this`courses, this`courseSeq, c`id
      ensures CoursesValid()
      ensures StoredNodes() == old(StoredNodes()) + {CourseNode(c)}
      ensures c.id == old(courseSeq) && courseSeq == old(courseSeq) + 1
      ensures courses == old(courses)[c.id := c]
    {
      NodesOfCourses(instructors.Values, details.Values, courses.Values, reviews.Values, students.Values, c);
      forall k | k in courses
        ensures courses[k] != c
      {
        assert courses[k] in courses.Values;
      }
      ValuesOfUpdate(courses, courseSeq, c);
      c.SetId(courseSeq);
      courses := courses[courseSeq := c];
      courseSeq := courseSeq + 1;
    }

    /** Stores `r` under the next id of the review sequence and advances the sequence. */
    method AssignReviewId(r: Review)
      requires ReviewsValid() && r !in reviews.Values
      modifies this`reviews, this`reviewSeq, r`id
      ensures ReviewsValid()
      ensures StoredNodes() == old(StoredNodes()) + {ReviewNode(r)}
      ensures r.id == old(reviewSeq) && reviewSeq == old(reviewSeq) + 1
      ensures reviews == old(reviews)[r.id := r]
    {
      NodesOfReviews(instructors.Values, details.Values, courses.Values, reviews.Values, students.Values, r);
      forall k | k in reviews
        ensures reviews[k] != r
      {
        assert reviews[k] in reviews.Values;
      }
      ValuesOfUpdate(reviews, reviewSeq, r);
      r.SetId(reviewSeq);
      reviews := reviews[reviewSeq := r];
      reviewSeq := reviewSeq + 1;
    }

    /** Stores `s` under the next id of the student sequence and advances the sequence. */
    method AssignStudentId(s: Student)
      requires StudentsValid() && s !in students.Values
      modifies this`students, this`studentSeq, s`id
      ensures StudentsValid()
      ensures StoredNodes() == old(StoredNodes()) + {StudentNode(s)}
      ensures s.id == old(studentSeq) && studentSeq == old(studentSeq) + 1
      ensures students == old(students)[s.id := s]
    {
      NodesOfStudents(instructors.Values, details.Values, courses.Values, reviews.Values, students.Values, s);
      forall k | k in students
        ensures students[k] != s
      {
        assert students[k] in students.Values;
      }
      ValuesOfUpdate(students, studentSeq, s);
      s.SetId(studentSeq);
      students := students[studentSeq := s];
      studentSeq := studentSeq + 1;
    }
  }
}
