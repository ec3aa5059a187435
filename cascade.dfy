/**
 * The PERSIST cascade of the entity graph, as the mapping annotations declare it:
 *   Instructor.detail (ALL), Instructor.courses (PERSIST),
 *   InstructorDetail.instructor (PERSIST),
 *   Course.instructor (PERSIST), Course.reviews (ALL), Course.students (PERSIST),
 *   Student.courses (PERSIST); a Review cascades to nothing.
 * Persisting an entity persists every entity reachable from it along these
 * edges; null references and null elements are skipped.
 */
module Cascade {
  import opened Wrappers
  import opened Entities

  /** An entity of any of the five kinds, as a vertex of the entity graph. */
  datatype Node =
    | InstructorNode(instructor: Instructor)
    | DetailNode(detail: InstructorDetail)
    | CourseNode(course: Course)
    | ReviewNode(review: Review)
    | StudentNode(student: Student)

  function InstructorsOf(u: set<Node>): set<Instructor>
  {
    set n | n in u && n.InstructorNode? :: n.instructor
  }

  function DetailsOf(u: set<Node>): set<InstructorDetail>
  {
    set n | n in u && n.DetailNode? :: n.detail
  }

  function CoursesOf(u: set<Node>): set<Course>
  {
    set n | n in u && n.CourseNode? :: n.course
  }

  function ReviewsOf(u: set<Node>): set<Review>
  {
    set n | n in u && n.ReviewNode? :: n.review
  }

  function StudentsOf(u: set<Node>): set<Student>
  {
    set n | n in u && n.StudentNode? :: n.student
  }

  /** The identity field of the entity behind a node. */
  function IdOf(n: Node): int
    reads InstructorsOf({n})`id, DetailsOf({n})`id, CoursesOf({n})`id, ReviewsOf({n})`id, StudentsOf({n})`id
  {
    match n
    case InstructorNode(i) => assert i in InstructorsOf({n}); i.id
    case DetailNode(d) => assert d in DetailsOf({n}); d.id
    case CourseNode(c) => assert c in CoursesOf({n}); c.id
    case ReviewNode(r) => assert r in ReviewsOf({n}); r.id
    case StudentNode(s) => assert s in StudentsOf({n}); s.id
  }

  /**
   * The entities a persist of `n` cascades to directly. Reads relationship
   * fields only, never ids. The edges are the cascades that include PERSIST:
   * Instructor.detail (ALL) and Instructor.courses (Instructor.java 110-111,
   * 130-136), InstructorDetail.instructor (InstructorDetail.java 101-106),
   * Course.instructor, Course.reviews (ALL) and Course.students (Course.java
   * 85-90, 110-111, 130-140), and Student.courses (Student.java 124-134).
   */
  function CascadeTargets(n: Node): set<Node>
    reads InstructorsOf({n})`detail, InstructorsOf({n})`courses, DetailsOf({n})`instructor
    reads CoursesOf({n})`instructor, CoursesOf({n})`reviews, CoursesOf({n})`students, StudentsOf({n})`courses
  {
    match n
    case InstructorNode(i) =>
      assert i in InstructorsOf({n});
      (if i.detail == null then {} else {DetailNode(i.detail)})
      + (if i.courses.None? then {} else set c | c in i.courses.value :: CourseNode(c))
    case DetailNode(d) =>
      assert d in DetailsOf({n});
      if d.instructor == null then {} else {InstructorNode(d.instructor)}
    case CourseNode(c) =>
      assert c in CoursesOf({n});
      (if c.instructor == null then {} else {InstructorNode(c.instructor)})
      + (if c.reviews.None? then {} else set r | r in c.reviews.value :: ReviewNode(r))
      + (if c.students.None? then {} else set s | s in c.students.value :: StudentNode(s))
    case ReviewNode(_) => {}
    case StudentNode(s) =>
      assert s in StudentsOf({n});
      if s.courses.None? then {} else set c | c in s.courses.value :: CourseNode(c)
  }

  /** No cascade edge leaves `u`. */
  ghost predicate Closed(u: set<Node>)
    reads InstructorsOf(u)`detail, InstructorsOf(u)`courses, DetailsOf(u)`instructor
    reads CoursesOf(u)`instructor, CoursesOf(u)`reviews, CoursesOf(u)`students, StudentsOf(u)`courses
  {
    forall n :: n in u ==> CascadeTargets(n) <= u
  }

  /** The targets of the nodes of `frontier`: the next layer of the search, before removing what was seen. */
  function Successors(frontier: set<Node>, ghost heap: set<Node>): (r: set<Node>)
    requires frontier <= heap && Closed(heap)
    reads InstructorsOf(heap)`detail, InstructorsOf(heap)`courses, DetailsOf(heap)`instructor
    reads CoursesOf(heap)`instructor, CoursesOf(heap)`reviews, CoursesOf(heap)`students, StudentsOf(heap)`courses
    ensures r <= heap
    ensures forall n :: n in frontier ==> CascadeTargets(n) <= r
    ensures forall m :: m in r ==> exists n :: n in frontier && m in CascadeTargets(n)
  {
    set n, m | n in frontier && m in CascadeTargets(n) :: m
  }

  /**
   * The search layer by layer: `visited` is done, `frontier` is the layer
   * being expanded. The result is everything the search ever visits.
   */
  function Explore(visited: set<Node>, frontier: set<Node>, ghost heap: set<Node>): (r: set<Node>)
    requires visited + frontier <= heap && visited !! frontier && Closed(heap)
    reads InstructorsOf(heap)`detail, InstructorsOf(heap)`courses, DetailsOf(heap)`instructor
    reads CoursesOf(heap)`instructor, CoursesOf(heap)`reviews, CoursesOf(heap)`students, StudentsOf(heap)`courses
    ensures visited + frontier <= r <= heap
    decreases |heap - visited|
  {
    if frontier == {} then visited
    else
      var seen := visited + frontier;
      assert heap - seen < heap - visited;
      Explore(seen, Successors(frontier, heap) - seen, heap)
  }

  /**
   * The entities a persist of `root` reaches. `heap` is any cascade-closed
   * set holding `root` (the object graph is finite); it only bounds the
   * search, and the result does not depend on it (`ReachableUnique`).
   */
  function Reachable(root: Node, ghost heap: set<Node>): (r: set<Node>)
    requires root in heap && Closed(heap)
    reads InstructorsOf(heap)`detail, InstructorsOf(heap)`courses, DetailsOf(heap)`instructor
    reads CoursesOf(heap)`instructor, CoursesOf(heap)`reviews, CoursesOf(heap)`students, StudentsOf(heap)`courses
    ensures root in r && r <= heap
  {
    Explore({}, {root}, heap)
  }

  /** If every visited node's targets were seen, the search ends on a closed set. */
  lemma {:induction false} ExploreClosed(visited: set<Node>, frontier: set<Node>, heap: set<Node>)
    requires visited + frontier <= heap && visited !! frontier && Closed(heap)
    requires forall n :: n in visited ==> CascadeTargets(n) <= visited + frontier
    ensures Closed(Explore(visited, frontier, heap))
    decreases |heap - visited|
  {
    if frontier != {} {
      var seen := visited + frontier;
      assert heap - seen < heap - visited;
      var next := Successors(frontier, heap) - seen;
      forall n | n in seen
        ensures CascadeTargets(n) <= seen + next
      {
        if n in visited {
          assert CascadeTargets(n) <= visited + frontier;
        } else {
          assert CascadeTargets(n) <= Successors(frontier, heap);
        }
      }
      ExploreClosed(seen, next, heap);
    }
  }

  /** The search never leaves a closed set that holds what it has seen. */
  lemma {:induction false} ExploreLeast(visited: set<Node>, frontier: set<Node>, heap: set<Node>, u: set<Node>)
    requires visited + frontier <= heap && visited !! frontier && Closed(heap)
    requires visited + frontier <= u && Closed(u)
    ensures Explore(visited, frontier, heap) <= u
    decreases |heap - visited|
  {
    if frontier != {} {
      var seen := visited + frontier;
      assert heap - seen < heap - visited;
      forall m | m in Successors(frontier, heap)
        ensures m in u
      {
        var n :| n in frontier && m in CascadeTargets(n);
        assert CascadeTargets(n) <= u;
      }
      ExploreLeast(seen, Successors(frontier, heap) - seen, heap, u);
    }
  }

  /** What a persist of `root` reaches is cascade-closed. */
  lemma ReachableClosed(root: Node, heap: set<Node>)
    requires root in heap && Closed(heap)
    ensures Closed(Reachable(root, heap))
  {
    ExploreClosed({}, {root}, heap);
  }

  /** What a persist of `root` reaches lies inside every cascade-closed set holding `root`. */
  lemma ReachableLeast(root: Node, heap: set<Node>, u: set<Node>)
    requires root in heap && Closed(heap)
    requires root in u && Closed(u)
    ensures Reachable(root, heap) <= u
  {
    ExploreLeast({}, {root}, heap, u);
  }

  /** The bound `heap` does not change what a persist reaches. */
  lemma ReachableUnique(root: Node, heap: set<Node>, heap': set<Node>)
    requires root in heap && Closed(heap)
    requires root in heap' && Closed(heap')
    ensures Reachable(root, heap) == Reachable(root, heap')
  {
    ReachableClosed(root, heap);
    ReachableClosed(root, heap');
    ReachableLeast(root, heap, Reachable(root, heap'));
    ReachableLeast(root, heap', Reachable(root, heap));
  }
}
