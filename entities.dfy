/**
 * The academic domain's entity graph: instructors, their profile details,
 * courses, course reviews and students. Each entity is a mutable record whose
 * relationship fields are plain object references, so a Java `null` field is
 * a nullable reference here, a `null` collection field is `None`, and a
 * `HashSet`/`ArrayList` field is `Some` of a set/sequence value. No entity
 * overrides `equals`, so the sets are sets of object identities.
 *
 * Every `id` starts at 0, the value a store reads as "not yet persisted".
 */
module Entities {
  import opened Wrappers

  /** A Java `String` reference: `None` is `null`. */
  type Text = Option<string>

  /** The set a lazily allocated `HashSet` field holds after `add(x)`. */
  function Insert<T>(s: Option<set<T>>, x: T): set<T>
  {
    match s
    case None => {x}
    case Some(elems) => elems + {x}
  }

  /** Inserting an element twice leaves the set inserting it once does: a `HashSet` add is idempotent. */
  lemma InsertIdempotent<T>(s: Option<set<T>>, x: T)
    ensures Insert(Some(Insert(s, x)), x) == Insert(s, x)
  {
  }

  /** The list a lazily allocated `ArrayList` field holds after `add(x)`. */
  function Append<T>(l: Option<seq<T>>, x: T): seq<T>
  {
    match l
    case None => [x]
    case Some(elems) => elems + [x]
  }

  class Instructor {
    var id: int
    var firstName: Text
    var lastName: Text
    var email: Text
    /** Owning side of the one-to-one link (join column `Instructor_Detail_id`, cascade ALL). */
    var detail: InstructorDetail?
    /** Inverse side of the course link (`mappedBy = "instructor"`, cascade without REMOVE). */
    var courses: Option<set<Course?>>

    /** The no-argument constructor: every field keeps its default, the course set stays null. */
    constructor Empty()
      ensures id == 0 && firstName == None && lastName == None && email == None
      ensures detail == null && courses == None
    {
      id := 0;
      firstName, lastName, email := None, None, None;
      detail := null;
      courses := None;
    }

    /** Stores names, email and detail and allocates an empty course set; the detail's back-reference is not touched. */
    constructor (firstName: Text, lastName: Text, email: Text, detail: InstructorDetail?)
      ensures id == 0 && this.firstName == firstName && this.lastName == lastName && this.email == email
      ensures this.detail == detail && courses == Some({})
      ensures detail != null ==> detail.instructor == old(detail.instructor)
    {
      id := 0;
      this.firstName, this.lastName, this.email := firstName, lastName, email;
      this.detail := detail;
      courses := Some({});
    }

    method SetId(id: int)
      modifies this`id
      ensures this.id == id
    {
      this.id := id;
    }

    method SetFirstName(firstName: Text)
      modifies this`firstName
      ensures this.firstName == firstName
    {
      this.firstName := firstName;
    }

    method SetLastName(lastName: Text)
      modifies this`lastName
      ensures this.lastName == lastName
    {
      this.lastName := lastName;
    }

    method SetEmail(email: Text)
      modifies this`email
      ensures this.email == email
    {
      this.email := email;
    }

    /** Overwrites only the owning reference; the old and new details' back-references are untouched. */
    method SetDetail(detail: InstructorDetail?)
      modifies this`detail
      ensures this.detail == detail
    {
      this.detail := detail;
    }

    method SetCourses(courses: Option<set<Course?>>)
      modifies this`courses
      ensures this.courses == courses
    {
      this.courses := courses;
    }

    /**
     * Links both sides: the course now names this instructor and is in this
     * instructor's course set. A null course only produces a message, so
     * nothing changes. When the course set was never allocated, the course
     * already names this instructor when adding to the set throws a
     * NullPointerException; `thrown` reports that exception.
     */
    method AddCourse(course: Course?) returns (thrown: bool)
      modifies this`courses, (if course == null then {} else {course})`instructor
      ensures thrown <==> course != null && old(courses).None?
      ensures course == null ==> courses == old(courses)
      ensures course != null ==> course.instructor == this
      ensures thrown ==> courses == None
      ensures course != null && !thrown ==> courses == Some(old(courses).value + {course})
    {
      thrown := false;
      if course == null {
        // the source prints a message here
      } else {
        course.SetInstructor(this);
        if courses.None? {
          return true;
        }
        courses := Some(courses.value + {course});
      }
    }
  }

  class InstructorDetail {
    var id: int
    var youtubeChannel: Text
    var hobby: Text
    /** Inverse side of the one-to-one link (`mappedBy = "detail"`): the stored link is `Instructor.detail`. */
    var instructor: Instructor?

    constructor Empty()
      ensures id == 0 && youtubeChannel == None && hobby == None && instructor == null
    {
      id := 0;
      youtubeChannel, hobby := None, None;
      instructor := null;
    }

    /** Stores channel and hobby; the back-reference stays null. */
    constructor (youtubeChannel: Text, hobby: Text)
      ensures id == 0 && this.youtubeChannel == youtubeChannel && this.hobby == hobby
      ensures instructor == null
    {
      id := 0;
      this.youtubeChannel, this.hobby := youtubeChannel, hobby;
      instructor := null;
    }

    method SetId(id: int)
      modifies this`id
      ensures this.id == id
    {
      this.id := id;
    }

    method SetYoutubeChannel(youtubeChannel: Text)
      modifies this`youtubeChannel
      ensures this.youtubeChannel == youtubeChannel
    {
      this.youtubeChannel := youtubeChannel;
    }

    method SetHobby(hobby: Text)
      modifies this`hobby
      ensures this.hobby == hobby
    {
      this.hobby := hobby;
    }

    /** Overwrites only the back-reference; the instructor's `detail` is untouched. */
    method SetInstructor(instructor: Instructor?)
      modifies this`instructor
      ensures this.instructor == instructor
    {
      this.instructor := instructor;
    }
  }

  class Course {
    var id: int
    var title: Text
    /** Owning side of the course link (join column `Instructor_id`, cascade without REMOVE). */
    var instructor: Instructor?
    /** Reviews owned by this course (join column `course_id` on the review table, cascade ALL). */
    var reviews: Option<seq<Review?>>
    /** One owning side of the `course_student` join table (cascade without REMOVE). */
    var students: Option<set<Student?>>

    constructor Empty()
      ensures id == 0 && title == None && instructor == null && reviews == None && students == None
    {
      id := 0;
      title := None;
      instructor := null;
      reviews, students := None, None;
    }

    /** Stores the title; instructor, reviews and students stay null. */
    constructor (title: Text)
      ensures id == 0 && this.title == title
      ensures instructor == null && reviews == None && students == None
    {
      id := 0;
      this.title := title;
      instructor := null;
      reviews, students := None, None;
    }

    method SetId(id: int)
      modifies this`id
      ensures this.id == id
    {
      this.id := id;
    }

    method SetTitle(title: Text)
      modifies this`title
      ensures this.title == title
    {
      this.title := title;
    }

    /** Overwrites only this course's reference; no instructor's course set is touched. */
    method SetInstructor(instructor: Instructor?)
      modifies this`instructor
      ensures this.instructor == instructor
    {
      this.instructor := instructor;
    }

    method SetReviews(reviews: Option<seq<Review?>>)
      modifies this`reviews
      ensures this.reviews == reviews
    {
      this.reviews := reviews;
    }

    method SetStudents(students: Option<set<Student?>>)
      modifies this`students
      ensures this.students == students
    {
      this.students := students;
    }

    /** Allocates the list when it is null, then appends: the list grows by one and keeps duplicates. */
    method AddReview(review: Review?)
      modifies this`reviews
      ensures reviews == Some(Append(old(reviews), review))
      ensures |reviews.value| == (if old(reviews).None? then 0 else |old(reviews).value|) + 1
      ensures old(reviews).Some? ==> reviews.value[..|old(reviews).value|] == old(reviews).value
      ensures reviews.value[|reviews.value| - 1] == review
    {
      if reviews == None {
        reviews := Some([]);
        assert [] + [review] == [review];
      }
      reviews := Some(reviews.value + [review]);
    }

    /** Allocates the set when it is null, then inserts; the student's own course set is untouched. */
    method AddStudent(student: Student?)
      modifies this`students
      ensures students == Some(Insert(old(students), student))
      ensures student in students.value
      ensures old(students).Some? ==> old(students).value <= students.value
    {
      if students == None {
        students := Some({});
        assert {} + {student} == {student};
      }
      students := Some(students.value + {student});
    }
  }

  /** A review holds no reference to its course: ownership lives only in `Course.reviews`. */
  class Review {
    var id: int
    var comment: Text

    constructor Empty()
      ensures id == 0 && comment == None
    {
      id := 0;
      comment := None;
    }

    /** Stores the comment; the id stays 0 until the store assigns one. */
    constructor (comment: Text)
      ensures id == 0 && this.comment == comment
    {
      id := 0;
      this.comment := comment;
    }

    method SetId(id: int)
      modifies this`id
      ensures this.id == id
    {
      this.id := id;
    }

    method SetComment(comment: Text)
      modifies this`comment
      ensures this.comment == comment
    {
      this.comment := comment;
    }
  }

  class Student {
    var id: int
    var firstName: Text
    var lastName: Text
    var email: Text
    /** The other owning side of the `course_student` join table (cascade without REMOVE). */
    var courses: Option<set<Course?>>

    constructor Empty()
      ensures id == 0 && firstName == None && lastName == None && email == None && courses == None
    {
      id := 0;
      firstName, lastName, email := None, None, None;
      courses := None;
    }

    /** Stores names and email; the course set stays null. */
    constructor (firstName: Text, lastName: Text, email: Text)
      ensures id == 0 && this.firstName == firstName && this.lastName == lastName && this.email == email
      ensures courses == None
    {
      id := 0;
      this.firstName, this.lastName, this.email := firstName, lastName, email;
      courses := None;
    }

    method SetId(id: int)
      modifies this`id
      ensures this.id == id
    {
      this.id := id;
    }

    method SetFirstName(firstName: Text)
      modifies this`firstName
      ensures this.firstName == firstName
    {
      this.firstName := firstName;
    }

    method SetLastName(lastName: Text)
      modifies this`lastName
      ensures this.lastName == lastName
    {
      this.lastName := lastName;
    }

    method SetEmail(email: Text)
      modifies this`email
      ensures this.email == email
    {
      this.email := email;
    }

    method SetCourses(courses: Option<set<Course?>>)
      modifies this`courses
      ensures this.courses == courses
    {
      this.courses := courses;
    }

    /** Allocates the set when it is null, then inserts; the course's student set is untouched. */
    method EnrollCourse(course: Course?)
      modifies this`courses
      ensures courses == Some(Insert(old(courses), course))
      ensures course in courses.value
      ensures old(courses).Some? ==> old(courses).value <= courses.value
    {
      if courses == None {
        courses := Some({});
        assert {} + {course} == {course};
      }
      courses := Some(courses.value + {course});
    }
  }
}
