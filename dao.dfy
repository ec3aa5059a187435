/**
 * The data-access object of the application (`InstructorDaoImpl`): every
 * operation over the persistence store. The class is transactional, so each
 * operation is one transaction; an exception it raises is returned as a
 * failure value.
 *
 * Each operation starts from a fresh persistence context, so what a query
 * loads is what the tables say: the courses of an instructor are the stored
 * courses whose foreign key names it, and the instructor of a detail is the
 * stored instructor whose foreign key names the detail.
 */
module Dao {
  import opened Wrappers
  import opened Entities
  import opened Cascade
  import opened Store

  /** Two members of a one-element set are the same. */
  lemma SingletonUnique<T>(s: set<T>)
    requires |s| == 1
    ensures forall x, y :: x in s && y in s ==> x == y
  {
    forall x, y | x in s && y in s
      ensures x == y
    {
      if x != y {
        assert {x, y} <= s;
        assert |{x, y}| == 2;
        CardinalityOfSubset({x, y}, s);
      }
    }
  }

  lemma CardinalityOfSubset<T>(a: set<T>, b: set<T>)
    requires a <= b
    ensures |a| <= |b|
  {
    assert b == a + (b - a);
  }

  /** A set has more than one member exactly when it holds two different ones. */
  lemma MoreThanOne<T>(s: set<T>)
    ensures |s| > 1 <==> exists x, y :: x in s && y in s && x != y
  {
    if |s| > 1 {
      var x :| x in s;
      assert |s - {x}| == |s| - 1;
      var y :| y in s - {x};
      assert x in s && y in s && x != y;
    }
    if exists x, y :: x in s && y in s && x != y {
      var x, y :| x in s && y in s && x != y;
      assert |{x, y}| == 2;
      CardinalityOfSubset({x, y}, s);
    }
  }

  /**
   * `getSingleResult()` over the rows a query matched: the row when there is
   * exactly one, NoResult when there is none, NonUniqueResult otherwise.
   */
  function SingleResult<T(==)>(rows: set<T>): (r: Result<T>)
    ensures r.Ok? <==> |rows| == 1
    ensures r.Ok? ==> rows == {r.value}
    ensures r == Err(NoResult) <==> rows == {}
    ensures r == Err(NonUniqueResult) <==> |rows| > 1
    ensures r.Err? ==> r.error == NoResult || r.error == NonUniqueResult
  {
    if rows == {} then Err(NoResult)
    else if |rows| == 1 then
      SingletonUnique(rows);
      var x :| x in rows;
      Ok(x)
    else Err(NonUniqueResult)
  }

  /** Every instructor the store maps to is stored under its own id. */
  lemma StoredInstructorsHeld(em: EntityStore)
    requires em.InstructorsValid()
    ensures forall i :: i in em.instructors.Values ==> em.HoldsInstructor(i)
  {
    forall i | i in em.instructors.Values
      ensures em.HoldsInstructor(i)
    {
      var k := KeyOf(em.instructors, i);
    }
  }

  /** The details the instructors of `ins` hold. */
  function HeldDetails(ins: set<Instructor>): set<InstructorDetail>
    reads ins`detail
  {
    set i | i in ins && i.detail != null :: i.detail
  }

  /** The instructors the courses of `cs` name. */
  function Teachers(cs: set<Course>): set<Instructor>
    reads cs`instructor
  {
    set c | c in cs && c.instructor != null :: c.instructor
  }

  class InstructorDao {
    /** The entity manager, together with the database behind it. */
    const em: EntityStore

    constructor (em: EntityStore)
      ensures this.em == em
    {
      this.em := em;
    }

    /** `findById(id)`: the instructor stored under `id`, or null. */
    function FindById(id: int): (r: Instructor?)
      requires em.InstructorsValid()
      reads em`instructors, em`instructorSeq, em.instructors.Values`id
      ensures r != null ==> r.id == id && em.HoldsInstructor(r)
      ensures r == null ==> forall k :: k in em.instructors ==> em.instructors[k].id != id
    {
      if id in em.instructors then em.instructors[id] else null
    }

    /** `findDetailById(id)`: the detail stored under `id`, or null. */
    function FindDetailById(id: int): (r: InstructorDetail?)
      requires em.DetailsValid()
      reads em`details, em`detailSeq, em.details.Values`id
      ensures r != null ==> r.id == id && em.HoldsDetail(r)
      ensures r == null ==> forall k :: k in em.details ==> em.details[k].id != id
    {
      if id in em.details then em.details[id] else null
    }

    /** `findCourseById(id)`: the course stored under `id`, or null. */
    function FindCourseById(id: int): (r: Course?)
      requires em.CoursesValid()
      reads em`courses, em`courseSeq, em.courses.Values`id
      ensures r != null ==> r.id == id && em.HoldsCourse(r)
      ensures r == null ==> forall k :: k in em.courses ==> em.courses[k].id != id
    {
      if id in em.courses then em.courses[id] else null
    }

    /** `findAll()`: every stored instructor. The query has no ORDER BY, so the list is a set here. */
    function FindAll(): (r: set<Instructor>)
      requires em.InstructorsValid()
      reads em`instructors, em`instructorSeq, em.instructors.Values`id
      ensures forall i :: i in r ==> FindById(i.id) == i
      ensures forall k :: k in em.instructors ==> em.instructors[k] in r
    {
      StoredInstructorsHeld(em);
      em.instructors.Values
    }

    /**
     * `findByName(firstName, lastName)`: the single stored instructor with
     * both names. A null parameter matches no row, as SQL `=` never holds
     * with NULL.
     */
    function FindByName(firstName: Text, lastName: Text): (r: Result<Instructor>)
      reads em`instructors, em.instructors.Values`firstName, em.instructors.Values`lastName
      ensures r.Ok? ==> && r.value in em.instructors.Values
                        && firstName.Some? && r.value.firstName == firstName
                        && lastName.Some? && r.value.lastName == lastName
      ensures r.Ok? ==> forall k :: (k in em.instructors && em.instructors[k].firstName == firstName
                                     && em.instructors[k].lastName == lastName) ==> em.instructors[k] == r.value
      ensures r == Err(NoResult) <==>
                firstName.None? || lastName.None?
                || forall k :: k in em.instructors ==> em.instructors[k].firstName != firstName || em.instructors[k].lastName != lastName
      ensures r == Err(NonUniqueResult) <==>
                && firstName.Some? && lastName.Some?
                && exists j, k :: && j in em.instructors && k in em.instructors && em.instructors[j] != em.instructors[k]
                                  && em.instructors[j].firstName == firstName && em.instructors[j].lastName == lastName
                                  && em.instructors[k].firstName == firstName && em.instructors[k].lastName == lastName
      ensures r.Err? ==> r.error == NoResult || r.error == NonUniqueResult
    {
      var rows := set k | k in em.instructors && firstName.Some? && lastName.Some?
                          && em.instructors[k].firstName == firstName && em.instructors[k].lastName == lastName
                        :: em.instructors[k];
      assert forall k :: (k in em.instructors && firstName.Some? && lastName.Some? && em.instructors[k].firstName == firstName
                          && em.instructors[k].lastName == lastName) ==> em.instructors[k] in rows;
      MoreThanOne(rows);
      SingleResult(rows)
    }

    /** `findByEmail(email)`: the single stored instructor with this email; null matches no row. */
    function FindByEmail(email: Text): (r: Result<Instructor>)
      reads em`instructors, em.instructors.Values`email
      ensures r.Ok? ==> r.value in em.instructors.Values && email.Some? && r.value.email == email
      ensures r.Ok? ==> forall k :: k in em.instructors && em.instructors[k].email == email ==> em.instructors[k] == r.value
      ensures r == Err(NoResult) <==> email.None? || forall k :: k in em.instructors ==> em.instructors[k].email != email
      ensures r == Err(NonUniqueResult) <==>
                && email.Some?
                && exists j, k :: && j in em.instructors && k in em.instructors && em.instructors[j] != em.instructors[k]
                                  && em.instructors[j].email == email && em.instructors[k].email == email
      ensures r.Err? ==> r.error == NoResult || r.error == NonUniqueResult
    {
      var rows := set k | k in em.instructors && email.Some? && em.instructors[k].email == email :: em.instructors[k];
      assert forall k :: k in em.instructors && email.Some? && em.instructors[k].email == email ==> em.instructors[k] in rows;
      MoreThanOne(rows);
      SingleResult(rows)
    }

    /**
     * `findByYoutubeChannel(youtubeChannel)`: the single stored instructor
     * whose detail has this channel. The inner join skips instructors
     * without a detail; null matches no row.
     */
    function FindByYoutubeChannel(youtubeChannel: Text): (r: Result<Instructor>)
      reads em`instructors, em.instructors.Values`detail, HeldDetails(em.instructors.Values)`youtubeChannel
      ensures r.Ok? ==> && r.value in em.instructors.Values && youtubeChannel.Some?
                        && r.value.detail != null && r.value.detail.youtubeChannel == youtubeChannel
      ensures r.Ok? ==> forall k :: (k in em.instructors && em.instructors[k].detail != null
                                     && em.instructors[k].detail.youtubeChannel == youtubeChannel) ==> em.instructors[k] == r.value
      ensures r == Err(NoResult) <==>
                youtubeChannel.None?
                || forall k :: k in em.instructors && em.instructors[k].detail != null ==> em.instructors[k].detail.youtubeChannel != youtubeChannel
      ensures r == Err(NonUniqueResult) <==>
                && youtubeChannel.Some?
                && exists j, k :: && j in em.instructors && k in em.instructors && em.instructors[j] != em.instructors[k]
                                  && em.instructors[j].detail != null && em.instructors[j].detail.youtubeChannel == youtubeChannel
                                  && em.instructors[k].detail != null && em.instructors[k].detail.youtubeChannel == youtubeChannel
      ensures r.Err? ==> r.error == NoResult || r.error == NonUniqueResult
    {
      var rows := set k | k in em.instructors && youtubeChannel.Some? && em.instructors[k].detail != null
                          && em.instructors[k].detail.youtubeChannel == youtubeChannel
                        :: em.instructors[k];
      assert forall k :: (k in em.instructors && youtubeChannel.Some? && em.instructors[k].detail != null
                          && em.instructors[k].detail.youtubeChannel == youtubeChannel) ==> em.instructors[k] in rows;
      MoreThanOne(rows);
      SingleResult(rows)
    }

    /**
     * `findByInstructor(i)`: the stored courses whose instructor has `i`'s
     * id. Reading the id of a null instructor throws.
     */
    function FindByInstructor(i: Instructor?): (r: Result<set<Course>>)
      reads i, em`courses, em.courses.Values`instructor, Teachers(em.courses.Values)`id
      ensures r.Err? <==> i == null
      ensures r.Err? ==> r.error == NullReference
      ensures r.Ok? ==> forall c :: c in r.value ==> c in em.courses.Values && c.instructor != null && c.instructor.id == i.id
      ensures r.Ok? ==> forall k :: (k in em.courses && em.courses[k].instructor != null
                                     && em.courses[k].instructor.id == i.id) ==> em.courses[k] in r.value
    {
      if i == null then Err(NullReference)
      else Ok(set c | c in em.courses.Values && c.instructor != null && c.instructor.id == i.id)
    }

    /**
     * `findCourseAndInstructor(id)`: the course stored under `id`, after
     * reading its instructor's id; a missing course or a course without an
     * instructor throws. The instructor lookup's result is discarded.
     */
    function FindCourseAndInstructor(id: int): (r: Result<Course>)
      requires em.CoursesValid()
      reads em`courses, em`courseSeq, em.courses.Values`id, em.courses.Values`instructor
      ensures r.Ok? <==> FindCourseById(id) != null && FindCourseById(id).instructor != null
      ensures r.Ok? ==> r.value == FindCourseById(id)
      ensures r.Err? ==> r.error == NullReference
    {
      if id !in em.courses || em.courses[id].instructor == null then Err(NullReference) else Ok(em.courses[id])
    }

    /**
     * `findInstructorByJoinFetch(id)`: the instructor stored under `id`,
     * loaded with its courses through an inner JOIN FETCH. The join drops an
     * instructor that no stored course names, and the fetched rows of one
     * instructor collapse into one result.
     */
    function FindInstructorByJoinFetch(id: int): (r: Result<Instructor>)
      requires em.InstructorsValid()
      reads em`instructors, em`instructorSeq, em.instructors.Values`id, em`courses, em.courses.Values`instructor
      ensures r.Ok? <==> FindById(id) != null && em.CourseNames(FindById(id))
      ensures r.Ok? ==> r.value == FindById(id)
      ensures r.Err? ==> r.error == NoResult
    {
      if id in em.instructors && em.CourseNames(em.instructors[id]) then Ok(em.instructors[id]) else Err(NoResult)
    }

    /** `findCourseAndReviewsById(id)`: the course stored under `id`, found only when a stored review is in its list. */
    function FindCourseAndReviewsById(id: int): (r: Result<Course>)
      requires em.CoursesValid()
      reads em`courses, em`courseSeq, em.courses.Values`id, em.courses.Values`reviews, em`reviews
      reads if id in em.courses then ListedReviews(em.courses[id]) else {}
      ensures r.Ok? <==> FindCourseById(id) != null && exists x :: x in ListedReviews(FindCourseById(id)) && em.HoldsReview(x)
      ensures r.Ok? ==> r.value == FindCourseById(id)
      ensures r.Err? ==> r.error == NoResult
    {
      if id in em.courses && exists x :: x in ListedReviews(em.courses[id]) && em.HoldsReview(x)
      then Ok(em.courses[id]) else Err(NoResult)
    }

    /** `findCourseWithItsStudentById(id)`: the course stored under `id`, found only when a stored student is linked to it. */
    function FindCourseWithItsStudentById(id: int): (r: Result<Course>)
      requires em.CoursesValid()
      reads em`courses, em`courseSeq, em.courses.Values`id, em.courses.Values`students, em`students, em.students.Values`courses
      ensures r.Ok? <==> FindCourseById(id) != null && exists k :: k in em.students && Linked(FindCourseById(id), em.students[k])
      ensures r.Ok? ==> r.value == FindCourseById(id)
      ensures r.Err? ==> r.error == NoResult
    {
      if id in em.courses && exists k :: k in em.students && Linked(em.courses[id], em.students[k])
      then Ok(em.courses[id]) else Err(NoResult)
    }

    /** `findStudentsAndHisCoursesById(id)`: the student stored under `id`, found only when a stored course is linked to it. */
    function FindStudentsAndHisCoursesById(id: int): (r: Result<Student>)
      requires em.StudentsValid()
      reads em`students, em`studentSeq, em.students.Values`id, em.students.Values`courses, em`courses, em.courses.Values`students
      ensures r.Ok? ==> r.value.id == id && em.HoldsStudent(r.value)
      ensures r.Ok? <==> id in em.students && exists k :: k in em.courses && Linked(em.courses[k], em.students[id])
      ensures r.Err? ==> r.error == NoResult
    {
      if id in em.students && exists k :: k in em.courses && Linked(em.courses[k], em.students[id])
      then Ok(em.students[id]) else Err(NoResult)
    }
  
    /**
     * The stored instructors whose foreign key names `d`: what loading the
     * inverse side `d.instructor` reads.
     */
    function Owners(d: InstructorDetail): (r: set<Instructor>)
      reads em`instructors, em.instructors.Values`detail
      ensures forall o :: o in r ==> o in em.instructors.Values && o.detail == d
      ensures forall k :: k in em.instructors && em.instructors[k].detail == d ==> em.instructors[k] in r
    {
      set k | k in em.instructors && em.instructors[k].detail == d :: em.instructors[k]
    }

    /**
     * Under the schema's constraints, the courses `findByInstructor` selects
     * by id are exactly the stored courses naming the instructor itself.
     */
    lemma FindByInstructorNamesInstructor(i: Instructor)
      requires em.Valid() && em.Consistent() && em.HoldsInstructor(i)
      ensures FindByInstructor(i) == Ok(set k | k in em.courses && em.courses[k].instructor == i :: em.courses[k])
    {
      var byId := FindByInstructor(i).value;
      var byRef := set k | k in em.courses && em.courses[k].instructor == i :: em.courses[k];
      forall c | c in byId
        ensures c in byRef
      {
        var k := KeyOf(em.courses, c);
        var j := KeyOf(em.instructors, c.instructor);
        assert em.instructors[j].id == j;
      }
      forall c | c in byRef
        ensures c in byId
      {
        var k :| k in em.courses && em.courses[k] == c && c.instructor == i;
      }
      assert byId == byRef;
    }

    /**
     * Under the schema's constraints, the JOIN FETCH finder finds a stored
     * instructor exactly when `findByInstructor` lists a course for it.
     */
    lemma JoinFetchNeedsCourses(id: int)
      requires em.Valid() && em.Consistent() && FindById(id) != null
      ensures FindInstructorByJoinFetch(id).Ok? <==> FindByInstructor(FindById(id)).value != {}
    {
      var i := FindById(id);
      FindByInstructorNamesInstructor(i);
      if em.CourseNames(i) {
        var k :| k in em.courses && em.courses[k].instructor == i;
        assert em.courses[k] in FindByInstructor(i).value;
      }
    }

    /** A stored course linked to a stored student is found with its students. */
    lemma FindsLinkedCourse(c: Course, s: Student)
      requires em.CoursesValid() && em.HoldsCourse(c) && em.HoldsStudent(s) && Linked(c, s)
      ensures FindCourseWithItsStudentById(c.id) == Ok(c)
    {
      var k := s.id;
      assert k in em.students && em.students[k] == s && em.courses[c.id] == c;
      assert Linked(em.courses[c.id], em.students[k]);
    }

    /** A stored student linked to a stored course is found with its courses. */
    lemma FindsLinkedStudent(c: Course, s: Student)
      requires em.StudentsValid() && em.HoldsCourse(c) && em.HoldsStudent(s) && Linked(c, s)
      ensures FindStudentsAndHisCoursesById(s.id) == Ok(s)
    {
      var k := c.id;
      assert k in em.courses && em.courses[k] == c && em.students[s.id] == s;
      assert Linked(em.courses[k], em.students[s.id]);
    }

    /** `create(instructor)`: persists the instructor and its cascade. */
    method Create(instructor: Instructor?, ghost heap: set<Node>) returns (outcome: Outcome)
      requires em.Valid() && Closed(heap) && (instructor != null ==> InstructorNode(instructor) in heap)
      modifies em`instructors, em`details, em`courses, em`reviews, em`students
      modifies em`instructorSeq, em`detailSeq, em`courseSeq, em`reviewSeq, em`studentSeq
      modifies InstructorsOf(if instructor == null then {} else Reachable(InstructorNode(instructor), heap))`id, DetailsOf(if instructor == null then {} else Reachable(InstructorNode(instructor), heap))`id
      modifies CoursesOf(if instructor == null then {} else Reachable(InstructorNode(instructor), heap))`id, ReviewsOf(if instructor == null then {} else Reachable(InstructorNode(instructor), heap))`id
      modifies StudentsOf(if instructor == null then {} else Reachable(InstructorNode(instructor), heap))`id
      ensures em.Valid()
      ensures instructor == null ==> outcome == Fail(IllegalArgument) && unchanged(em)
      ensures instructor != null ==>
                (outcome.Pass? <==> old(!HasDetached(Reachable(InstructorNode(instructor), heap)) && !em.DetailClash(Reachable(InstructorNode(instructor), heap))))
      ensures instructor != null ==>
                (outcome == Fail(DetachedEntity) <==> old(HasDetached(Reachable(InstructorNode(instructor), heap))))
      ensures instructor != null ==>
                (outcome == Fail(ConstraintViolation) <==> old(!HasDetached(Reachable(InstructorNode(instructor), heap)) && em.DetailClash(Reachable(InstructorNode(instructor), heap))))
      ensures outcome.Fail? ==> unchanged(em)
      ensures outcome.Fail? ==> unchanged(InstructorsOf(heap), DetailsOf(heap), CoursesOf(heap), ReviewsOf(heap), StudentsOf(heap))
      ensures instructor != null && outcome.Pass? ==>
                em.StoredNodes() == old(em.StoredNodes() + Reachable(InstructorNode(instructor), heap))
      ensures instructor != null && outcome.Pass? ==> FindById(instructor.id) == instructor
      ensures Extends(old(em.Snapshot()), em.Snapshot())
      ensures old(em.Consistent()) ==> em.Consistent()
    {
      if instructor == null {
        return Fail(IllegalArgument);
      }
      outcome := em.Persist(InstructorNode(instructor), heap);
      if outcome.Pass? {
        em.HeldWhenStored(InstructorNode(instructor));
      }
    }

    /** `saveCourse(course)`: persists the course and its cascade. */
    method SaveCourse(course: Course?, ghost heap: set<Node>) returns (outcome: Outcome)
      requires em.Valid() && Closed(heap) && (course != null ==> CourseNode(course) in heap)
      modifies em`instructors, em`details, em`courses, em`reviews, em`students
      modifies em`instructorSeq, em`detailSeq, em`courseSeq, em`reviewSeq, em`studentSeq
      modifies InstructorsOf(if course == null then {} else Reachable(CourseNode(course), heap))`id, DetailsOf(if course == null then {} else Reachable(CourseNode(course), heap))`id
      modifies CoursesOf(if course == null then {} else Reachable(CourseNode(course), heap))`id, ReviewsOf(if course == null then {} else Reachable(CourseNode(course), heap))`id
      modifies StudentsOf(if course == null then {} else Reachable(CourseNode(course), heap))`id
      ensures em.Valid()
      ensures course == null ==> outcome == Fail(IllegalArgument) && unchanged(em)
      ensures course != null ==>
                (outcome.Pass? <==> old(!HasDetached(Reachable(CourseNode(course), heap)) && !em.DetailClash(Reachable(CourseNode(course), heap))))
      ensures course != null ==>
                (outcome == Fail(DetachedEntity) <==> old(HasDetached(Reachable(CourseNode(course), heap))))
      ensures course != null ==>
                (outcome == Fail(ConstraintViolation) <==> old(!HasDetached(Reachable(CourseNode(course), heap)) && em.DetailClash(Reachable(CourseNode(course), heap))))
      ensures outcome.Fail? ==> unchanged(em)
      ensures outcome.Fail? ==> unchanged(InstructorsOf(heap), DetailsOf(heap), CoursesOf(heap), ReviewsOf(heap), StudentsOf(heap))
      ensures course != null && outcome.Pass? ==>
                em.StoredNodes() == old(em.StoredNodes() + Reachable(CourseNode(course), heap))
      ensures course != null && outcome.Pass? ==> FindCourseById(course.id) == course
      ensures Extends(old(em.Snapshot()), em.Snapshot())
      ensures old(em.Consistent()) ==> em.Consistent()
    {
      if course == null {
        return Fail(IllegalArgument);
      }
      outcome := em.Persist(CourseNode(course), heap);
      if outcome.Pass? {
        em.HeldWhenStored(CourseNode(course));
      }
    }

    /** `saveStudent(student)`: persists the student and its cascade. */
    method SaveStudent(student: Student?, ghost heap: set<Node>) returns (outcome: Outcome)
      requires em.Valid() && Closed(heap) && (student != null ==> StudentNode(student) in heap)
      modifies em`instructors, em`details, em`courses, em`reviews, em`students
      modifies em`instructorSeq, em`detailSeq, em`courseSeq, em`reviewSeq, em`studentSeq
      modifies InstructorsOf(if student == null then {} else Reachable(StudentNode(student), heap))`id, DetailsOf(if student == null then {} else Reachable(StudentNode(student), heap))`id
      modifies CoursesOf(if student == null then {} else Reachable(StudentNode(student), heap))`id, ReviewsOf(if student == null then {} else Reachable(StudentNode(student), heap))`id
      modifies StudentsOf(if student == null then {} else Reachable(StudentNode(student), heap))`id
      ensures em.Valid()
      ensures student == null ==> outcome == Fail(IllegalArgument) && unchanged(em)
      ensures student != null ==>
                (outcome.Pass? <==> old(!HasDetached(Reachable(StudentNode(student), heap)) && !em.DetailClash(Reachable(StudentNode(student), heap))))
      ensures student != null ==>
                (outcome == Fail(DetachedEntity) <==> old(HasDetached(Reachable(StudentNode(student), heap))))
      ensures student != null ==>
                (outcome == Fail(ConstraintViolation) <==> old(!HasDetached(Reachable(StudentNode(student), heap)) && em.DetailClash(Reachable(StudentNode(student), heap))))
      ensures outcome.Fail? ==> unchanged(em)
      ensures outcome.Fail? ==> unchanged(InstructorsOf(heap), DetailsOf(heap), CoursesOf(heap), ReviewsOf(heap), StudentsOf(heap))
      ensures student != null && outcome.Pass? ==>
                em.StoredNodes() == old(em.StoredNodes() + Reachable(StudentNode(student), heap))
      ensures student != null && outcome.Pass? ==> em.HoldsStudent(student)
      ensures Extends(old(em.Snapshot()), em.Snapshot())
      ensures old(em.Consistent()) ==> em.Consistent()
    {
      if student == null {
        return Fail(IllegalArgument);
      }
      outcome := em.Persist(StudentNode(student), heap);
      if outcome.Pass? {
        em.HeldWhenStored(StudentNode(student));
      }
    }

    /** Detaches every fetched course from its instructor, one course at a time. */
    method ClearInstructor(fetched: set<Course>)
      modifies fetched`instructor
      ensures forall c :: c in fetched ==> c.instructor == null
    {
      var todo := fetched;
      while todo != {}
        invariant todo <= fetched
        invariant forall c :: c in fetched - todo ==> c.instructor == null
        decreases |todo|
      {
        var c :| c in todo;
        c.SetInstructor(null);
        todo := todo - {c};
      }
    }

    /**
     * Sets to null the instructor of every stored course that names `i`, as
     * the loop over the fetched course collection does.
     */
    method DetachCourses(i: Instructor)
      requires em.Valid() && em.Consistent() && em.HoldsInstructor(i)
      modifies em.courses.Values`instructor
      ensures em.Consistent() && !em.CourseNames(i)
      ensures forall c :: c in em.courses.Values ==> c.instructor == (if old(c.instructor) == i then null else old(c.instructor))
    {
      var fetched := set k | k in em.courses && em.courses[k].instructor == i :: em.courses[k];
      ghost var named := map c | c in em.courses.Values :: c.instructor;
      ClearInstructor(fetched);
      forall c | c in em.courses.Values
        ensures c.instructor == (if named[c] == i then null else named[c])
      {
        if named[c] == i {
          var k := KeyOf(em.courses, c);
          assert c in fetched;
        }
      }
    }

    /**
     * Removes a stored instructor after detaching the stored courses that
     * name it; the REMOVE cascade takes its detail along.
     */
    method RemoveWithCourses(i: Instructor) returns (outcome: Outcome)
      requires em.Valid() && em.Consistent() && em.HoldsInstructor(i)
      modifies em`instructors, em`details, em.courses.Values`instructor
      ensures outcome == Pass
      ensures em.Valid() && em.Consistent()
      ensures em.instructors == old(em.instructors) - {i.id}
      ensures em.details == old(if i.detail == null then em.details else em.details - {i.detail.id})
      ensures forall c :: c in em.courses.Values ==> c.instructor == (if old(c.instructor) == i then null else old(c.instructor))
    {
      em.DetailOfStoredInstructor(i);
      DetachCourses(i);
      outcome := em.RemoveInstructor(i);
    }

    /**
     * `delete(id)`: loads the instructor through the JOIN FETCH finder,
     * detaches its courses and removes it. The finder's failure propagates.
     */
    method Delete(id: int) returns (outcome: Outcome)
      requires em.Valid() && em.Consistent()
      modifies em`instructors, em`details, em.courses.Values`instructor
      ensures em.Valid() && em.Consistent()
      ensures outcome == (if old(FindInstructorByJoinFetch(id)).Ok? then Pass else Fail(NoResult))
      ensures outcome.Pass? ==> old(FindById(id)) != null && FindById(id) == null
      ensures em.instructors == (if outcome.Pass? then old(em.instructors) - {id} else old(em.instructors))
      ensures outcome.Pass? ==> em.details == old(var d := em.instructors[id].detail; if d == null then em.details else em.details - {d.id})
      ensures outcome.Fail? ==> em.details == old(em.details)
      ensures forall c :: c in em.courses.Values ==>
                c.instructor == (if outcome.Pass? && old(c.instructor) == old(FindById(id)) then null else old(c.instructor))
    {
      var found := FindInstructorByJoinFetch(id);
      if found.Err? {
        return Fail(found.error);
      }
      outcome := RemoveWithCourses(found.value);
    }

    /**
     * The instructor-deletion operation as `delete(id)` evidently means it:
     * the instructor is loaded with `em.find`, so one without courses is
     * deleted too, and a missing one is no error.
     */
    method DeleteById(id: int) returns (outcome: Outcome)
      requires em.Valid() && em.Consistent()
      modifies em`instructors, em`details, em.courses.Values`instructor
      ensures outcome == Pass
      ensures em.Valid() && em.Consistent()
      ensures FindById(id) == null
      ensures em.instructors == old(em.instructors) - {id}
      ensures em.details == old(if id in em.instructors && em.instructors[id].detail != null
                                then em.details - {em.instructors[id].detail.id} else em.details)
      ensures forall c :: c in em.courses.Values ==>
                c.instructor == (if old(c.instructor) == old(FindById(id)) && old(c.instructor) != null then null else old(c.instructor))
    {
      var i := FindById(id);
      if i == null {
        return Pass;
      }
      outcome := RemoveWithCourses(i);
    }

    /**
     * `deleteDetailById(id)`: loads the detail, clears the owning
     * instructor's reference to it and removes it. A missing detail gives
     * null; a detail no stored instructor holds fails on the null owner.
     */
    method DeleteDetailById(id: int) returns (r: Result<InstructorDetail?>)
      requires em.Valid()
      modifies em`details, em.instructors.Values`detail
      ensures em.Valid()
      ensures r == (if old(FindDetailById(id)) == null then Ok(null)
                    else if old(Owners(FindDetailById(id))) == {} then Err(NullReference)
                    else if old(|Owners(FindDetailById(id))|) > 1 then Err(NonUniqueResult)
                    else Ok(old(FindDetailById(id))))
      ensures r.Ok? && r.value != null ==> r.value.id == id && FindDetailById(id) == null
      ensures em.details == (if r.Ok? && r.value != null then old(em.details) - {id} else old(em.details))
      ensures forall k :: k in em.instructors ==>
                em.instructors[k].detail == (if r.Ok? && r.value != null && old(em.instructors[k].detail) == r.value
                                             then null else old(em.instructors[k].detail))
      ensures old(em.Consistent()) ==> em.Consistent()
    {
      var d := FindDetailById(id);
      if d == null {
        return Ok(null);
      }
      var owner := SingleResult(Owners(d));
      if owner.Err? {
        return if owner.error == NoResult then Err(NullReference) else Err(owner.error);
      }
      ghost var wasConsistent := em.Consistent();
      ghost var held := map k | k in em.instructors :: em.instructors[k].detail;
      ghost var owners := Owners(d);
      owner.value.SetDetail(null);
      forall k | k in em.instructors
        ensures em.instructors[k].detail == (if held[k] == d then null else held[k])
      {
        if held[k] == d {
          assert em.instructors[k] in owners;
        }
      }
      if wasConsistent {
        forall j | j in em.instructors.Values && j.detail != null
          ensures j.detail in em.details.Values
        {
          var k := KeyOf(em.instructors, j);
        }
      }
      assert !em.InstructorNames(d);
      var outcome := em.RemoveDetail(d);
      r := Ok(d);
    }

    /** `deleteCourse(id)`: removes the course stored under `id`; a missing one is a null argument to `remove`. */
    method DeleteCourse(id: int) returns (outcome: Outcome)
      requires em.Valid()
      modifies em`courses, em`reviews
      ensures em.Valid()
      ensures outcome == (if old(FindCourseById(id)) == null then Fail(IllegalArgument)
                          else if old(em.ReviewDetached(em.courses[id])) then Fail(IllegalArgument)
                          else Pass)
      ensures outcome.Pass? ==> old(FindCourseById(id)) != null && FindCourseById(id) == null
      ensures outcome.Pass? ==> && em.courses == old(em.courses) - {id}
                                && em.reviews == old(map k | k in em.reviews && em.reviews[k] !in ListedReviews(em.courses[id]) :: em.reviews[k])
      ensures outcome.Fail? ==> em.courses == old(em.courses) && em.reviews == old(em.reviews)
      ensures old(em.Consistent()) ==> em.Consistent()
    {
      var course := FindCourseById(id);
      outcome := em.RemoveCourse(course);
    }

    /** `deleteStudentById(id)`: removes the student the JOIN FETCH finder loads; its failure propagates. */
    method DeleteStudentById(id: int) returns (outcome: Outcome)
      requires em.Valid()
      modifies em`students
      ensures em.Valid()
      ensures outcome == (if old(FindStudentsAndHisCoursesById(id)).Ok? then Pass else Fail(NoResult))
      ensures em.students == (if outcome.Pass? then old(em.students) - {id} else old(em.students))
    {
      var found := FindStudentsAndHisCoursesById(id);
      if found.Err? {
        return Fail(found.error);
      }
      outcome := em.RemoveStudent(found.value);
    }

    /**
     * The student-deletion operation as `deleteStudentById(id)` evidently
     * means it: the student is loaded with `em.find`, so one without courses
     * is deleted too.
     */
    method DeleteStudent(id: int) returns (outcome: Outcome)
      requires em.Valid()
      modifies em`students
      ensures em.Valid()
      ensures outcome == (if id in old(em.students) then Pass else Fail(IllegalArgument))
      ensures id !in em.students
      ensures em.students == old(em.students) - {id}
    {
      var student := if id in em.students then em.students[id] else null;
      outcome := em.RemoveStudent(student);
    }
  }
}
