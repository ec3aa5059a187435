/**
 * The demonstration flows of the application's command-line runner, each
 * run against an empty store, and the repetition properties of the entity
 * collection helpers.
 */
module Scenarios {
  import opened Wrappers
  import opened Entities
  import opened Cascade
  import opened Store
  import opened Dao

  /** A persist from `root` into an empty store succeeds when nothing in its closed `heap` has an id and no two instructors share a detail. */
  lemma PersistIntoEmpty(em: EntityStore, root: Node, heap: set<Node>)
    requires em.StoredNodes() == {} && em.instructors == map[]
    requires root in heap && Closed(heap) && !HasDetached(heap)
    requires forall i, j :: i in InstructorsOf(heap) && j in InstructorsOf(heap) && i != j && i.detail != null ==> i.detail != j.detail
    ensures !HasDetached(Reachable(root, heap)) && !em.DetailClash(Reachable(root, heap))
  {
    var r := Reachable(root, heap);
    assert InstructorsOf(r) <= InstructorsOf(heap);
  }

  /** A data-access object over a new, empty store. */
  method EmptyDao() returns (dao: InstructorDao)
    ensures fresh(dao.em) && dao.em.Valid() && dao.em.Consistent()
    ensures dao.em.StoredNodes() == {} && dao.em.instructors == map[]
  {
    var em := new EntityStore();
    dao := new InstructorDao(em);
  }

  /** The graph of a new course with two reviews and no instructor or students is closed and reaches all three. */
  lemma CourseWithReviews(course: Course, review: Review, review1: Review)
    requires course.instructor == null && course.students == None && course.reviews == Some([review, review1])
    requires course.id == 0 && review.id == 0 && review1.id == 0
    ensures var heap := {CourseNode(course), ReviewNode(review), ReviewNode(review1)};
            && Closed(heap) && !HasDetached(heap) && Reachable(CourseNode(course), heap) == heap
            && InstructorsOf(heap) == {} && DetailsOf(heap) == {} && StudentsOf(heap) == {}
            && CoursesOf(heap) == {course} && ReviewsOf(heap) == {review, review1}
  {
    var heap := {CourseNode(course), ReviewNode(review), ReviewNode(review1)};
    assert CascadeTargets(CourseNode(course)) == {ReviewNode(review), ReviewNode(review1)};
    assert CascadeTargets(ReviewNode(review)) == {} && CascadeTargets(ReviewNode(review1)) == {};
    assert Closed(heap);
    ReachableClosed(CourseNode(course), heap);
  }

  /** The object graph `createNewCourse` builds: a new course whose review list holds two new reviews. */
  method NewCourseWithReviews() returns (course: Course, review: Review, review1: Review)
    ensures fresh(course) && fresh(review) && fresh(review1) && review != review1
    ensures course.id == 0 && review.id == 0 && review1.id == 0
    ensures course.instructor == null && course.students == None && course.reviews == Some([review, review1])
  {
    course := new Course(Some("Java"));
    review := new Review(Some("Good Course"));
    review1 := new Review(Some("Awesome!!!!!"));
    course.AddReview(review);
    assert course.reviews == Some([review]);
    course.AddReview(review1);
    assert [review] + [review1] == [review, review1];
  }

  /**
   * `createNewCourse` (a course with two reviews, saved through the
   * course): the course and both reviews are stored, by the ALL cascade on
   * the review list.
   */
  method CreateNewCourse() returns (outcome: Outcome, dao: InstructorDao, course: Course, review: Review, review1: Review)
    ensures outcome == Pass && dao.em.Valid()
    ensures dao.FindCourseById(course.id) == course
    ensures dao.em.HoldsReview(review) && dao.em.HoldsReview(review1) && review != review1
  {
    dao := EmptyDao();
    var em := dao.em;
    course, review, review1 := NewCourseWithReviews();
    ghost var heap := {CourseNode(course), ReviewNode(review), ReviewNode(review1)};
    CourseWithReviews(course, review, review1);
    PersistIntoEmpty(em, CourseNode(course), heap);
    ghost var before := em.StoredNodes();
    outcome := dao.SaveCourse(course, heap);
    CourseWithReviewsSaved(dao, before, course, review, review1);
  }

  /** Once the course and its two reviews are stored, each review is held. */
  lemma CourseWithReviewsSaved(dao: InstructorDao, before: set<Node>, course: Course, review: Review, review1: Review)
    requires dao.em.Valid()
    requires before == {} && dao.em.StoredNodes() == before + {CourseNode(course), ReviewNode(review), ReviewNode(review1)}
    ensures dao.em.HoldsReview(review) && dao.em.HoldsReview(review1)
  {
    dao.em.HeldWhenStored(ReviewNode(review));
    dao.em.HeldWhenStored(ReviewNode(review1));
  }

  /** The object graph `createCourseWithStudent` builds: a new course whose student set holds two new students. */
  method NewCourseWithStudents() returns (course: Course, student: Student, student1: Student)
    ensures fresh(course) && fresh(student) && fresh(student1) && student != student1
    ensures course.id == 0 && student.id == 0 && student1.id == 0
    ensures course.instructor == null && course.reviews == None && course.students == Some({student, student1})
    ensures student.courses == None && student1.courses == None
  {
    course := new Course(Some("Java Script"));
    student := new Student(Some("Samer"), Some("Hadi"), Some("samer@emaol.com"));
    student1 := new Student(Some("Rami"), Some("Ali"), Some("Rami@gmail.com"));
    course.AddStudent(student);
    assert course.students == Some({student});
    course.AddStudent(student1);
    assert {student} + {student1} == {student, student1};
  }

  /** The graph of a new course with two students that enrolled in nothing is closed and reaches all three. */
  lemma CourseWithStudents(course: Course, student: Student, student1: Student)
    requires course.instructor == null && course.reviews == None && course.students == Some({student, student1})
    requires student.courses == None && student1.courses == None
    requires course.id == 0 && student.id == 0 && student1.id == 0
    ensures var heap := {CourseNode(course), StudentNode(student), StudentNode(student1)};
            && Closed(heap) && !HasDetached(heap) && Reachable(CourseNode(course), heap) == heap
            && InstructorsOf(heap) == {} && DetailsOf(heap) == {} && ReviewsOf(heap) == {}
            && CoursesOf(heap) == {course} && StudentsOf(heap) == {student, student1}
  {
    var heap := {CourseNode(course), StudentNode(student), StudentNode(student1)};
    assert CascadeTargets(CourseNode(course)) == {StudentNode(student), StudentNode(student1)};
    assert CascadeTargets(StudentNode(student)) == {} && CascadeTargets(StudentNode(student1)) == {};
    assert Closed(heap);
    ReachableClosed(CourseNode(course), heap);
  }

  /**
   * `createCourseWithStudent` (a course with two students, saved through
   * the course): both students are stored by the PERSIST cascade on the
   * course's student set, and the course is then found with its students.
   */
  method CreateCourseWithStudent() returns (outcome: Outcome, dao: InstructorDao, course: Course, student: Student, student1: Student)
    ensures outcome == Pass && dao.em.Valid()
    ensures dao.em.HoldsStudent(student) && dao.em.HoldsStudent(student1) && student != student1
    ensures dao.FindCourseWithItsStudentById(course.id) == Ok(course)
  {
    dao := EmptyDao();
    var em := dao.em;
    course, student, student1 := NewCourseWithStudents();
    ghost var heap := {CourseNode(course), StudentNode(student), StudentNode(student1)};
    CourseWithStudents(course, student, student1);
    PersistIntoEmpty(em, CourseNode(course), heap);
    ghost var before := em.StoredNodes();
    outcome := dao.SaveCourse(course, heap);
    CourseWithStudentsSaved(dao, before, course, student, student1);
  }

  /** Once the course and its two students are stored, each student is held and the course is found with its students. */
  lemma CourseWithStudentsSaved(dao: InstructorDao, before: set<Node>, course: Course, student: Student, student1: Student)
    requires dao.em.Valid() && course.students == Some({student, student1})
    requires before == {} && dao.em.StoredNodes() == before + {CourseNode(course), StudentNode(student), StudentNode(student1)}
    ensures dao.em.HoldsStudent(student) && dao.em.HoldsStudent(student1)
    ensures dao.FindCourseWithItsStudentById(course.id) == Ok(course)
  {
    dao.em.HeldWhenStored(CourseNode(course));
    dao.em.HeldWhenStored(StudentNode(student));
    dao.em.HeldWhenStored(StudentNode(student1));
    dao.FindsLinkedCourse(course, student);
  }

  /** The object graph `createStudent` builds: a new student enrolled in two new courses. */
  method NewStudentWithCourses() returns (student: Student, course: Course, course1: Course)
    ensures fresh(student) && fresh(course) && fresh(course1) && course != course1
    ensures student.id == 0 && course.id == 0 && course1.id == 0
    ensures student.courses == Some({course1, course})
    ensures course.instructor == null && course.reviews == None && course.students == None
    ensures course1.instructor == null && course1.reviews == None && course1.students == None
  {
    student := new Student(Some("Ahmad"), Some("Ali"), Some("ali@gmail.com"));
    course := new Course(Some("java"));
    course1 := new Course(Some("C++"));
    student.EnrollCourse(course1);
    assert student.courses == Some({course1});
    student.EnrollCourse(course);
    assert {course1} + {course} == {course1, course};
  }

  /** The graph of a new student enrolled in two bare courses is closed and reaches all three. */
  lemma StudentWithCourses(student: Student, course: Course, course1: Course)
    requires student.courses == Some({course1, course})
    requires course.instructor == null && course.reviews == None && course.students == None
    requires course1.instructor == null && course1.reviews == None && course1.students == None
    requires student.id == 0 && course.id == 0 && course1.id == 0
    ensures var heap := {StudentNode(student), CourseNode(course), CourseNode(course1)};
            && Closed(heap) && !HasDetached(heap) && Reachable(StudentNode(student), heap) == heap
            && InstructorsOf(heap) == {} && DetailsOf(heap) == {} && ReviewsOf(heap) == {}
            && CoursesOf(heap) == {course, course1} && StudentsOf(heap) == {student}
  {
    var heap := {StudentNode(student), CourseNode(course), CourseNode(course1)};
    assert CascadeTargets(StudentNode(student)) == {CourseNode(course1), CourseNode(course)};
    assert CascadeTargets(CourseNode(course)) == {} && CascadeTargets(CourseNode(course1)) == {};
    assert Closed(heap);
    ReachableClosed(StudentNode(student), heap);
  }

  /**
   * `createStudent` (a student enrolled in two courses, saved through the
   * student): both courses are stored by the PERSIST cascade on the
   * student's course set, and the student is then found with its courses.
   */
  method CreateStudent() returns (outcome: Outcome, dao: InstructorDao, student: Student, course: Course, course1: Course)
    ensures outcome == Pass && dao.em.Valid()
    ensures dao.FindCourseById(course.id) == course && dao.FindCourseById(course1.id) == course1 && course != course1
    ensures dao.FindStudentsAndHisCoursesById(student.id) == Ok(student)
  {
    dao := EmptyDao();
    var em := dao.em;
    student, course, course1 := NewStudentWithCourses();
    ghost var heap := {StudentNode(student), CourseNode(course), CourseNode(course1)};
    StudentWithCourses(student, course, course1);
    PersistIntoEmpty(em, StudentNode(student), heap);
    ghost var before := em.StoredNodes();
    outcome := dao.SaveStudent(student, heap);
    StudentWithCoursesSaved(dao, before, student, course, course1);
  }

  /** Once the student and its two courses are stored, each course is found by id and the student is found with its courses. */
  lemma StudentWithCoursesSaved(dao: InstructorDao, before: set<Node>, student: Student, course: Course, course1: Course)
    requires dao.em.Valid() && student.courses == Some({course1, course})
    requires before == {} && dao.em.StoredNodes() == before + {StudentNode(student), CourseNode(course), CourseNode(course1)}
    ensures dao.FindCourseById(course.id) == course && dao.FindCourseById(course1.id) == course1
    ensures dao.FindStudentsAndHisCoursesById(student.id) == Ok(student)
  {
    dao.em.HeldWhenStored(StudentNode(student));
    dao.em.HeldWhenStored(CourseNode(course));
    dao.em.HeldWhenStored(CourseNode(course1));
    dao.FindsLinkedStudent(course, student);
  }

  /**
   * The object graph of the runner's instructor example: a new instructor
   * with a new detail, linked to three new courses through `addCourse`. The
   * constructor leaves the detail's back-reference null.
   */
  method NewInstructorWithCourses() returns (instructor: Instructor, detail: InstructorDetail, course1: Course, course2: Course, course3: Course)
    ensures fresh(instructor) && fresh(detail) && fresh(course1) && fresh(course2) && fresh(course3)
    ensures course1 != course2 && course2 != course3 && course1 != course3
    ensures instructor.id == 0 && detail.id == 0 && course1.id == 0 && course2.id == 0 && course3.id == 0
    ensures instructor.detail == detail && instructor.courses == Some({course1, course2, course3}) && detail.instructor == null
    ensures course1.instructor == instructor && course1.reviews == None && course1.students == None
    ensures course2.instructor == instructor && course2.reviews == None && course2.students == None
    ensures course3.instructor == instructor && course3.reviews == None && course3.students == None
  {
    detail := new InstructorDetail(Some("www.youtube.com/AliSaleem"), Some("Gutter"));
    instructor := new Instructor(Some("Ali1"), Some("Saleem"), Some("aliSaleem@gmail.com"), detail);
    course1 := new Course(Some("java"));
    course2 := new Course(Some("C++"));
    course3 := new Course(Some("Data structures "));
    var thrown1 := instructor.AddCourse(course1);
    var thrown2 := instructor.AddCourse(course2);
    var thrown3 := instructor.AddCourse(course3);
    assert !thrown1 && !thrown2 && !thrown3;
    assert {} + {course1} + {course2} + {course3} == {course1, course2, course3};
  }

  /** The graph of an instructor, its detail and its courses. */
  function InstructorGraph(instructor: Instructor, detail: InstructorDetail, courses: set<Course>): set<Node>
  {
    {InstructorNode(instructor), DetailNode(detail)} + set c | c in courses :: CourseNode(c)
  }

  /**
   * The graph of a new instructor, its detail (whose back-reference is
   * null) and bare courses that name it is closed and reaches everything.
   */
  lemma InstructorWithCourses(instructor: Instructor, detail: InstructorDetail, courses: set<Course>)
    requires instructor.detail == detail && instructor.courses == Some(courses) && detail.instructor == null
    requires forall c :: c in courses ==> c.instructor == instructor && c.reviews == None && c.students == None
    requires instructor.id == 0 && detail.id == 0 && forall c :: c in courses ==> c.id == 0
    ensures var heap := InstructorGraph(instructor, detail, courses);
            && Closed(heap) && !HasDetached(heap) && Reachable(InstructorNode(instructor), heap) == heap
            && InstructorsOf(heap) == {instructor} && DetailsOf(heap) == {detail} && CoursesOf(heap) == courses
            && ReviewsOf(heap) == {} && StudentsOf(heap) == {}
  {
    var heap := InstructorGraph(instructor, detail, courses);
    assert CascadeTargets(InstructorNode(instructor)) == heap - {InstructorNode(instructor)};
    assert CascadeTargets(DetailNode(detail)) == {};
    forall n | n in heap
      ensures CascadeTargets(n) <= heap
    {
      if n.CourseNode? {
        assert CascadeTargets(n) == {InstructorNode(instructor)};
      }
    }
    assert InstructorsOf(heap) == {instructor} && DetailsOf(heap) == {detail};
    assert CoursesOf(heap) == courses;
    ReachableClosed(InstructorNode(instructor), heap);
  }

  /**
   * Once an instructor, its detail and courses naming it are stored (and
   * nothing else), the instructor is found by id, and its detail and
   * courses are held.
   */
  lemma InstructorSaved(dao: InstructorDao, before: set<Node>, instructor: Instructor, detail: InstructorDetail, courses: set<Course>)
    requires dao.em.Valid() && before == {} && dao.em.StoredNodes() == before + InstructorGraph(instructor, detail, courses)
    ensures dao.FindById(instructor.id) == instructor && dao.em.HoldsDetail(detail)
    ensures dao.em.courses.Values == courses && forall c :: c in courses ==> dao.em.HoldsCourse(c)
  {
    var em := dao.em;
    em.HeldWhenStored(InstructorNode(instructor));
    em.HeldWhenStored(DetailNode(detail));
    forall c | c in courses
      ensures em.HoldsCourse(c)
    {
      em.HeldWhenStored(CourseNode(c));
    }
    CoursesOfNodes(em.instructors.Values, em.details.Values, em.courses.Values, em.reviews.Values, em.students.Values);
    assert CoursesOf(InstructorGraph(instructor, detail, courses)) == courses;
  }

  /**
   * Creating an instructor that an earlier call stored fails: each call runs
   * in a new persistence context, where the instructor's id marks it detached.
   */
  method CreateAgain(dao: InstructorDao, instructor: Instructor, ghost heap: set<Node>) returns (outcome: Outcome)
    requires dao.em.Valid() && dao.em.HoldsInstructor(instructor) && Closed(heap) && InstructorNode(instructor) in heap
    modifies dao.em`instructors, dao.em`details, dao.em`courses, dao.em`reviews, dao.em`students
    modifies dao.em`instructorSeq, dao.em`detailSeq, dao.em`courseSeq, dao.em`reviewSeq, dao.em`studentSeq
    modifies InstructorsOf(heap)`id, DetailsOf(heap)`id, CoursesOf(heap)`id, ReviewsOf(heap)`id, StudentsOf(heap)`id
    ensures outcome == Fail(DetachedEntity) && unchanged(dao.em)
  {
    ghost var root := InstructorNode(instructor);
    assert root in Reachable(root, heap) && IdOf(root) != 0;
    outcome := dao.Create(instructor, heap);
  }

  /** Two instructors without a detail or a course set: each one's persist reaches only itself. */
  lemma LoneInstructors(a: Instructor, b: Instructor)
    requires a.detail == null && a.courses == None && b.detail == null && b.courses == None
    ensures var heap := {InstructorNode(a), InstructorNode(b)};
            && Closed(heap)
            && Reachable(InstructorNode(a), heap) == {InstructorNode(a)}
            && Reachable(InstructorNode(b), heap) == {InstructorNode(b)}
  {
    var heap := {InstructorNode(a), InstructorNode(b)};
    assert CascadeTargets(InstructorNode(a)) == {} && CascadeTargets(InstructorNode(b)) == {};
    assert Closed({InstructorNode(a)}) && Closed({InstructorNode(b)});
    ReachableLeast(InstructorNode(a), heap, {InstructorNode(a)});
    ReachableLeast(InstructorNode(b), heap, {InstructorNode(b)});
  }

  /**
   * Two creates over one object graph: creating `a` does not give the
   * unreached `b` an id, so creating `b` afterwards succeeds as well, and
   * both instructors are then found by their ids.
   */
  method CreateTwoInstructors(dao: InstructorDao, a: Instructor, b: Instructor) returns (first: Outcome, second: Outcome)
    requires dao.em.Valid() && a != b && a.id == 0 && b.id == 0
    requires a.detail == null && a.courses == None && b.detail == null && b.courses == None
    modifies dao.em`instructors, dao.em`details, dao.em`courses, dao.em`reviews, dao.em`students
    modifies dao.em`instructorSeq, dao.em`detailSeq, dao.em`courseSeq, dao.em`reviewSeq, dao.em`studentSeq
    modifies a`id, b`id
    ensures first == Pass && second == Pass
    ensures dao.em.Valid() && dao.FindById(a.id) == a && dao.FindById(b.id) == b
  {
    ghost var heap := {InstructorNode(a), InstructorNode(b)};
    LoneInstructors(a, b);
    first := CreateLone(dao, a, heap);
    LoneInstructors(a, b);
    second := CreateLone(dao, b, heap);
  }

  /** Creating a new instructor whose persist reaches only itself succeeds and keeps every stored row. */
  method CreateLone(dao: InstructorDao, x: Instructor, ghost heap: set<Node>) returns (outcome: Outcome)
    requires dao.em.Valid() && x.id == 0 && x.detail == null
    requires InstructorNode(x) in heap && Closed(heap) && Reachable(InstructorNode(x), heap) == {InstructorNode(x)}
    modifies dao.em`instructors, dao.em`details, dao.em`courses, dao.em`reviews, dao.em`students
    modifies dao.em`instructorSeq, dao.em`detailSeq, dao.em`courseSeq, dao.em`reviewSeq, dao.em`studentSeq
    modifies x`id
    ensures outcome == Pass && dao.em.Valid() && dao.FindById(x.id) == x
    ensures Extends(old(dao.em.Snapshot()), dao.em.Snapshot())
  {
    ghost var root := InstructorNode(x);
    assert InstructorsOf({root}) == {x} && DetailsOf({root}) == {} && CoursesOf({root}) == {};
    assert ReviewsOf({root}) == {} && StudentsOf({root}) == {};
    assert !HasDetached({root}) && !dao.em.DetailClash({root});
    outcome := dao.Create(x, heap);
  }

  /**
   * The runner's instructor example (an instructor with a detail and three
   * courses, created through the instructor): the PERSIST cascade stores the
   * detail and the courses with it, the instructor is found by id, and the
   * course table holds exactly its courses.
   */
  method CreateInstructorWithCourses() returns (outcome: Outcome, dao: InstructorDao, instructor: Instructor, detail: InstructorDetail, courses: set<Course>)
    ensures outcome == Pass && dao.em.Valid() && dao.em.Consistent()
    ensures dao.FindById(instructor.id) == instructor && dao.em.HoldsDetail(detail)
    ensures dao.em.courses.Values == courses
  {
    dao := EmptyDao();
    var course, course2, course3;
    instructor, detail, course, course2, course3 := NewInstructorWithCourses();
    courses := {course, course2, course3};
    outcome := SaveNewInstructor(dao, instructor, detail, courses);
  }

  /** Creating a new instructor graph through an empty store stores exactly that graph. */
  method SaveNewInstructor(dao: InstructorDao, instructor: Instructor, detail: InstructorDetail, courses: set<Course>) returns (outcome: Outcome)
    requires dao.em.Valid() && dao.em.Consistent() && dao.em.StoredNodes() == {} && dao.em.instructors == map[]
    requires instructor.detail == detail && instructor.courses == Some(courses) && detail.instructor == null
    requires forall c :: c in courses ==> c.instructor == instructor && c.reviews == None && c.students == None
    requires instructor.id == 0 && detail.id == 0 && forall c :: c in courses ==> c.id == 0
    modifies dao.em`instructors, dao.em`details, dao.em`courses, dao.em`reviews, dao.em`students
    modifies dao.em`instructorSeq, dao.em`detailSeq, dao.em`courseSeq, dao.em`reviewSeq, dao.em`studentSeq
    modifies instructor`id, detail`id, courses`id
    ensures outcome == Pass && dao.em.Valid() && dao.em.Consistent()
    ensures dao.FindById(instructor.id) == instructor && dao.em.HoldsDetail(detail)
    ensures dao.em.courses.Values == courses
  {
    ghost var heap := InstructorGraph(instructor, detail, courses);
    InstructorWithCourses(instructor, detail, courses);
    PersistIntoEmpty(dao.em, InstructorNode(instructor), heap);
    ghost var before := dao.em.StoredNodes();
    outcome := dao.Create(instructor, heap);
    InstructorSaved(dao, before, instructor, detail, courses);
  }

  /** The runner's `create` helper input: an instructor with a detail and an empty course set. */
  method NewInstructor() returns (instructor: Instructor, detail: InstructorDetail)
    ensures fresh(instructor) && fresh(detail)
    ensures instructor.id == 0 && detail.id == 0
    ensures instructor.detail == detail && instructor.courses == Some({}) && detail.instructor == null
  {
    detail := new InstructorDetail(Some("www.youtube.com/AliSaleem"), Some("Gutter"));
    instructor := new Instructor(Some("Ali1"), Some("Saleem"), Some("aliSaleem@gmail.com"), detail);
  }

  /**
   * A stored instructor that no stored course names: `delete` as written
   * refuses it with NoResult, and the corrected deletion removes it.
   */
  method DeleteUntaught(dao: InstructorDao, instructor: Instructor) returns (outcome: Outcome, corrected: Outcome)
    requires dao.em.Valid() && dao.em.Consistent() && dao.em.courses.Values == {}
    requires dao.FindById(instructor.id) == instructor
    modifies dao.em`instructors, dao.em`details
    ensures outcome == Fail(NoResult) && corrected == Pass
    ensures dao.em.Valid() && dao.FindById(instructor.id) == null
  {
    assert !dao.em.CourseNames(instructor);
    outcome := dao.Delete(instructor.id);
    corrected := dao.DeleteById(instructor.id);
  }

  /**
   * The runner's `create` then `delete` on an instructor without courses:
   * the deletion fails with NoResult although the instructor is stored.
   */
  method DeleteInstructorWithoutCourses() returns (outcome: Outcome, corrected: Outcome)
    ensures outcome == Fail(NoResult) && corrected == Pass
  {
    var dao := EmptyDao();
    var instructor, detail := NewInstructor();
    var created := SaveNewInstructor(dao, instructor, detail, {});
    outcome, corrected := DeleteUntaught(dao, instructor);
  }

  /**
   * Adding the same course twice leaves the instructor's course set as adding
   * it once; without a course set both calls throw and the set stays absent.
   */
  method AddCourseTwice(instructor: Instructor, course: Course) returns (thrown: bool, thrownAgain: bool)
    modifies instructor`courses, course`instructor
    ensures thrown == thrownAgain && (thrown <==> old(instructor.courses).None?)
    ensures !thrown ==> instructor.courses == Some(old(instructor.courses).value + {course})
    ensures thrown ==> instructor.courses == None
    ensures course.instructor == instructor
  {
    thrown := instructor.AddCourse(course);
    thrownAgain := instructor.AddCourse(course);
  }

  /** Enrolling in the same course twice leaves the student's course set as enrolling once. */
  method EnrollTwice(student: Student, course: Course)
    modifies student`courses
    ensures student.courses == Some(Insert(old(student.courses), course))
  {
    student.EnrollCourse(course);
    student.EnrollCourse(course);
    InsertIdempotent(old(student.courses), course);
  }

  /** Adding the same student twice leaves the course's student set as adding it once. */
  method AddStudentTwice(course: Course, student: Student)
    modifies course`students
    ensures course.students == Some(Insert(old(course.students), student))
  {
    course.AddStudent(student);
    course.AddStudent(student);
    InsertIdempotent(old(course.students), student);
  }

  /** Adding the same review twice keeps both copies: the review list is not a set. */
  method AddReviewTwice(course: Course, review: Review)
    modifies course`reviews
    ensures course.reviews == Some(Append(old(course.reviews), review) + [review])
    ensures |course.reviews.value| == (if old(course.reviews).None? then 0 else |old(course.reviews).value|) + 2
  {
    course.AddReview(review);
    course.AddReview(review);
  }

  /**
   * A new student that was never enrolled, saved into an empty store: the
   * PERSIST cascade has nothing to follow, so the student is the only row.
   */
  method SaveLoneStudent(dao: InstructorDao, student: Student) returns (outcome: Outcome)
    requires dao.em.Valid() && dao.em.StoredNodes() == {} && dao.em.instructors == map[]
    requires student.id == 0 && student.courses == None
    modifies dao.em`instructors, dao.em`details, dao.em`courses, dao.em`reviews, dao.em`students
    modifies dao.em`instructorSeq, dao.em`detailSeq, dao.em`courseSeq, dao.em`reviewSeq, dao.em`studentSeq
    modifies student`id
    ensures outcome == Pass && dao.em.Valid() && dao.em.HoldsStudent(student) && dao.em.courses.Values == {}
  {
    ghost var heap := {StudentNode(student)};
    assert CascadeTargets(StudentNode(student)) == {};
    assert CoursesOf(heap) == {} && StudentsOf(heap) == {student};
    PersistIntoEmpty(dao.em, StudentNode(student), heap);
    ghost var before := dao.em.StoredNodes();
    outcome := dao.SaveStudent(student, heap);
    CoursesOfNodes(dao.em.instructors.Values, dao.em.details.Values, dao.em.courses.Values, dao.em.reviews.Values, dao.em.students.Values);
    assert CoursesOf(dao.em.StoredNodes()) <= CoursesOf(before + heap);
  }

  /**
   * A stored student that no stored course is linked to: `deleteStudentById`
   * as written refuses it with NoResult, and the corrected deletion removes it.
   */
  method DeleteUnenrolled(dao: InstructorDao, student: Student) returns (outcome: Outcome, corrected: Outcome)
    requires dao.em.Valid() && dao.em.HoldsStudent(student) && dao.em.courses.Values == {}
    modifies dao.em`students
    ensures outcome == Fail(NoResult) && corrected == Pass
    ensures student.id !in dao.em.students
  {
    assert dao.FindStudentsAndHisCoursesById(student.id).Err?;
    outcome := dao.DeleteStudentById(student.id);
    corrected := dao.DeleteStudent(student.id);
  }

  /**
   * `saveStudent` then `deleteStudentById` on a student without courses:
   * the deletion fails with NoResult although the student is stored.
   */
  method DeleteStudentWithoutCourses() returns (outcome: Outcome, corrected: Outcome)
    ensures outcome == Fail(NoResult) && corrected == Pass
  {
    var dao := EmptyDao();
    var student := new Student(Some("Ahmad"), Some("Ali"), Some("ali@gmail.com"));
    var saved := SaveLoneStudent(dao, student);
    outcome, corrected := DeleteUnenrolled(dao, student);
  }
}
