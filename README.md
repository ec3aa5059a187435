# Jpa-Hibernate: the entity graph and the instructor data-access object

This project models the core of a small JPA/Hibernate application about instructors, their profile details, courses, course reviews and students. The model has two layers.

- **The entity graph** (`entities.dfy`) is five mutable classes: `Instructor`, `InstructorDetail`, `Course`, `Review` and `Student`. They keep the source's constructors, setters and relationship helpers:
  - `Instructor.addCourse` links both sides.
  - `Course.addReview`, `Course.addStudent` and `Student.enrollCourse` allocate their collection lazily and never touch the other side.
  - A Java `null` is a nullable reference. A null collection field is `None`. A `HashSet` of entities with identity equality is a `set` of object references, and an `ArrayList` is a `seq`.
- **The persistence layer.** The entity manager and the database behind it are one `EntityStore` class (`store.dfy`).
  - The store has one map per table, from id to the managed entity, and one id sequence per entity kind. Each sequence starts at 1 with allocation size 1.
  - `Persist` follows the PERSIST cascade of the mapping annotations. The cascade is written out in `cascade.dfy` as an explicit graph search.
  - The `RemoveX` methods follow the REMOVE cascade (ALL on `Instructor.detail` and `Course.reviews`) and the schema's foreign-key constraints.
  - `InstructorDao` (`dao.dfy`) is `InstructorDaoImpl` over that store. Its finders are functions of the store state. Its mutators are methods that change the store and entity fields step by step, including the loop of `delete` that nulls each course's instructor.
- **Scenarios** (`scenarios.dfy`) replay the flows of the application's runner against an empty store. They also state the repetition properties of the collection helpers.

JPA exceptions are values:
- `Failure` lists NoResult, NonUniqueResult, NullReference, IllegalArgument, DetachedEntity and ConstraintViolation.
- `Result<T>` is what a finder returns; `Outcome` is what a mutator returns.

Each DAO operation is one transaction (`@Transactional` on the class) that starts from a fresh persistence context. So:
- A persist treats every reached entity that already has an id as detached, even when a row with that id is stored.
- The courses of an instructor are the stored courses whose foreign key names it.
- The instructor of a detail is the stored instructor whose foreign key names the detail.

## Model

| member | source | states |
|---|---|---|
| Entities.Instructor.Empty | src/main/java/org/digitnary/traning/restcrudapp/entity/Instructor.java:153-154 | the no-argument constructor leaves every field at its default and the course set null |
| Entities.Instructor.constructor | src/main/java/org/digitnary/traning/restcrudapp/entity/Instructor.java:164-170 | stores names, email and detail; starts with an empty course set; leaves the detail's back-reference untouched |
| Entities.Instructor.SetId | src/main/java/org/digitnary/traning/restcrudapp/entity/Instructor.java:43-45 | changes the id and nothing else |
| Entities.Instructor.SetFirstName | src/main/java/org/digitnary/traning/restcrudapp/entity/Instructor.java:62-64 | changes the first name and nothing else |
| Entities.Instructor.SetLastName | src/main/java/org/digitnary/traning/restcrudapp/entity/Instructor.java:81-83 | changes the last name and nothing else |
| Entities.Instructor.SetEmail | src/main/java/org/digitnary/traning/restcrudapp/entity/Instructor.java:101-103 | changes the email and nothing else |
| Entities.Instructor.SetDetail | src/main/java/org/digitnary/traning/restcrudapp/entity/Instructor.java:121-123 | changes only the owning `detail` reference; no detail's back-reference moves |
| Entities.Instructor.SetCourses | src/main/java/org/digitnary/traning/restcrudapp/entity/Instructor.java:146-148 | changes only the course set |
| Entities.Instructor.AddCourse | src/main/java/org/digitnary/traning/restcrudapp/entity/Instructor.java:177-184 | null changes nothing; otherwise the course names this instructor, and the set gains exactly that course, or, when no set was allocated, the call throws a NullPointerException after the course was already linked; only those two fields may change |
| Entities.InstructorDetail.Empty | src/main/java/org/digitnary/traning/restcrudapp/entity/InstructorDetail.java:22-23 | every field at its default, no instructor |
| Entities.InstructorDetail.constructor | src/main/java/org/digitnary/traning/restcrudapp/entity/InstructorDetail.java:31-34 | stores channel and hobby; the back-reference stays null |
| Entities.InstructorDetail.SetId | src/main/java/org/digitnary/traning/restcrudapp/entity/InstructorDetail.java:54-56 | changes the id and nothing else |
| Entities.InstructorDetail.SetYoutubeChannel | src/main/java/org/digitnary/traning/restcrudapp/entity/InstructorDetail.java:73-75 | changes the channel and nothing else |
| Entities.InstructorDetail.SetHobby | src/main/java/org/digitnary/traning/restcrudapp/entity/InstructorDetail.java:92-94 | changes the hobby and nothing else |
| Entities.InstructorDetail.SetInstructor | src/main/java/org/digitnary/traning/restcrudapp/entity/InstructorDetail.java:116-118 | changes only the back-reference; the instructor's `detail` is untouched |
| Entities.Course.Empty | src/main/java/org/digitnary/traning/restcrudapp/entity/Course.java:37-38 | every field at its default; instructor, reviews and students null |
| Entities.Course.constructor | src/main/java/org/digitnary/traning/restcrudapp/entity/Course.java:30-32 | stores the title; instructor, reviews and students stay null |
| Entities.Course.SetId | src/main/java/org/digitnary/traning/restcrudapp/entity/Course.java:57-59 | changes the id and nothing else |
| Entities.Course.SetTitle | src/main/java/org/digitnary/traning/restcrudapp/entity/Course.java:76-78 | changes the title and nothing else |
| Entities.Course.SetInstructor | src/main/java/org/digitnary/traning/restcrudapp/entity/Course.java:101-103 | changes only this course's reference; no instructor's course set is touched |
| Entities.Course.SetReviews | src/main/java/org/digitnary/traning/restcrudapp/entity/Course.java:121-123 | changes only the review list |
| Entities.Course.SetStudents | src/main/java/org/digitnary/traning/restcrudapp/entity/Course.java:150-152 | changes only the student set |
| Entities.Course.AddReview | src/main/java/org/digitnary/traning/restcrudapp/entity/Course.java:159-164 | a null list becomes `[r]`, otherwise `r` is appended; the length grows by exactly one, the old prefix is kept and the last element is `r`; only the list changes |
| Entities.Course.AddStudent | src/main/java/org/digitnary/traning/restcrudapp/entity/Course.java:171-176 | the set becomes (empty if null, else old) plus the student; the student's own course set is untouched |
| Entities.Review.Empty | src/main/java/org/digitnary/traning/restcrudapp/entity/Review.java:20-21 | id 0 and no comment |
| Entities.Review.constructor | src/main/java/org/digitnary/traning/restcrudapp/entity/Review.java:28-30 | stores the comment; the id stays 0 until the store assigns one |
| Entities.Review.SetId | src/main/java/org/digitnary/traning/restcrudapp/entity/Review.java:49-51 | changes the id and nothing else |
| Entities.Review.SetComment | src/main/java/org/digitnary/traning/restcrudapp/entity/Review.java:68-70 | changes the comment and nothing else |
| Entities.Student.Empty | src/main/java/org/digitnary/traning/restcrudapp/entity/Student.java:25 | every field at its default, course set null |
| Entities.Student.constructor | src/main/java/org/digitnary/traning/restcrudapp/entity/Student.java:34-38 | stores names and email; the course set stays null |
| Entities.Student.SetId | src/main/java/org/digitnary/traning/restcrudapp/entity/Student.java:58-60 | changes the id and nothing else |
| Entities.Student.SetFirstName | src/main/java/org/digitnary/traning/restcrudapp/entity/Student.java:77-79 | changes the first name and nothing else |
| Entities.Student.SetLastName | src/main/java/org/digitnary/traning/restcrudapp/entity/Student.java:96-98 | changes the last name and nothing else |
| Entities.Student.SetEmail | src/main/java/org/digitnary/traning/restcrudapp/entity/Student.java:115-117 | changes the email and nothing else |
| Entities.Student.SetCourses | src/main/java/org/digitnary/traning/restcrudapp/entity/Student.java:144-146 | changes only the course set |
| Entities.Student.EnrollCourse | src/main/java/org/digitnary/traning/restcrudapp/entity/Student.java:153-158 | the set becomes (empty if null, else old) plus the course; the course's student set is untouched |
| Entities.InsertIdempotent | src/main/java/org/digitnary/traning/restcrudapp/entity/Student.java:157 | inserting the same element twice gives the set that inserting it once gives |
| Cascade.CascadeTargets | src/main/java/org/digitnary/traning/restcrudapp/entity/Instructor.java:110-136 | the entities a persist of one entity cascades to directly: an instructor's detail (ALL) and courses, a detail's instructor, a course's instructor, listed reviews (ALL) and students, a student's courses; a review cascades nowhere. These seven edges are the associations whose `cascade` includes PERSIST (Instructor.java 110-111 and 130-136, InstructorDetail.java 101-106, Course.java 85-90, 110-111 and 130-140, Student.java 124-134) |
| Cascade.Successors | src/main/java/org/digitnary/traning/restcrudapp/entity/Instructor.java:130-136 | the next search layer holds every cascade target of the frontier and nothing else |
| Cascade.Reachable | src/main/java/org/digitnary/traning/restcrudapp/entity/Instructor.java:110-111 | what a persist reaches holds the root and stays inside the bounding graph |
| Cascade.ExploreClosed | src/main/java/org/digitnary/traning/restcrudapp/entity/Course.java:85-90 | the layered search ends on a set closed under every PERSIST cascade edge |
| Cascade.ExploreLeast | src/main/java/org/digitnary/traning/restcrudapp/entity/Course.java:130-140 | the layered search never leaves a closed set that holds what it has seen |
| Cascade.ReachableClosed | src/main/java/org/digitnary/traning/restcrudapp/entity/Student.java:124-134 | what a persist reaches is cascade-closed |
| Cascade.ReachableLeast | src/main/java/org/digitnary/traning/restcrudapp/entity/InstructorDetail.java:101-106 | what a persist reaches lies in every closed set holding the root: it is the least closed set |
| Cascade.ReachableUnique | src/main/java/org/digitnary/traning/restcrudapp/entity/Course.java:110-111 | what a persist reaches does not depend on the bounding graph |
| Store.HasDetached | src/main/java/org/digitnary/traning/restcrudapp/entity/Instructor.java:30-32 | some entity of the set already has an id other than the `int` default 0; since every id comes from a SEQUENCE generator, a new persistence context sees such an entity as detached and `persist` rejects it |
| Store.Linked | src/main/java/org/digitnary/traning/restcrudapp/entity/Student.java:124-134 | a course and a student are linked when either one's collection names the other, since both sides map the `course_student` join table as owners (Course.java 130-140 and Student.java 124-134) |
| Store.ConsistentAmong | src/main/java/org/digitnary/traning/restcrudapp/entity/Course.java:85-91 | the foreign keys hold over the stored rows: every stored instructor's detail is stored and no two instructors share one (the `Instructor_Detail_id` join column of Instructor.java 110-111), and every stored course's instructor is stored (the `Instructor_id` join column) |
| Store.EntityStore.Consistent | src/main/java/org/digitnary/traning/restcrudapp/entity/Instructor.java:110-111 | the store's tables satisfy those foreign keys and the unique detail column |
| Store.DetailClashWith | src/main/java/org/digitnary/traning/restcrudapp/entity/Instructor.java:110-111 | a new instructor among those reached holds a detail that a stored instructor or another reached instructor holds too, which the unique one-to-one join column rejects |
| Store.EntityStore.DetailClash | src/main/java/org/digitnary/traning/restcrudapp/entity/Instructor.java:110-111 | storing the reached instructors would break the unique detail join column |
| Store.ListedReviews | src/main/java/org/digitnary/traning/restcrudapp/entity/Course.java:110-111 | the reviews a course owns are exactly the non-null elements of its list |
| Store.ConsistentAfterStoring | src/main/java/org/digitnary/traning/restcrudapp/dao/impl/InstructorDaoImpl.java:33 | storing a cascade-closed set with no detail clash keeps every foreign key and the unique detail join column intact |
| Store.ConsistentAfterRemovingInstructor | src/main/java/org/digitnary/traning/restcrudapp/dao/impl/InstructorDaoImpl.java:47 | removing an instructor no course names, together with its unshared detail, keeps the constraints |
| Store.ConsistentAfterRemovingDetail | src/main/java/org/digitnary/traning/restcrudapp/dao/impl/InstructorDaoImpl.java:94 | removing a detail no instructor holds keeps the constraints |
| Store.ConsistentAfterRemovingCourses | src/main/java/org/digitnary/traning/restcrudapp/dao/impl/InstructorDaoImpl.java:132 | removing courses keeps the constraints |
| Store.EntityStore.constructor | src/main/java/org/digitnary/traning/restcrudapp/dao/impl/InstructorDaoImpl.java:25-29 | an empty, valid and consistent database whose sequences all start at 1 |
| Store.EntityStore.DetailOfStoredInstructor | src/main/java/org/digitnary/traning/restcrudapp/entity/Instructor.java:110-111 | under the constraints, a stored instructor's detail is stored and held by no other instructor |
| Store.EntityStore.HeldWhenStored | src/main/java/org/digitnary/traning/restcrudapp/dao/impl/InstructorDaoImpl.java:54 | every managed entity is stored under its own id |
| Store.EntityStore.Persist | src/main/java/org/digitnary/traning/restcrudapp/dao/impl/InstructorDaoImpl.java:33 | succeeds exactly when every reached entity is new (id 0) and no two instructors would share a detail; fails with DetachedEntity or ConstraintViolation in exactly the other cases; on success the managed entities become the old ones plus everything reached; stored rows are never changed or removed and new keys come from the sequences; a failure leaves the tables as they were (the model also keeps the ids and the sequences, see Left out); the constraints are kept; only the ids of reached entities may change |
| Store.EntityStore.StoreAll | src/main/java/org/digitnary/traning/restcrudapp/dao/impl/InstructorDaoImpl.java:33 | stores exactly the reached entities; every stored row keeps its key, and every added key was drawn from its sequence; tables and constraints stay valid |
| Store.EntityStore.AssignIds | src/main/java/org/digitnary/traning/restcrudapp/dao/impl/InstructorDaoImpl.java:33 | the loop gives each pending entity an id and stores exactly the pending entities; every earlier row keeps its key and object, and every new key lies between the old and the new sequence value |
| Store.EntityStore.AssignId | src/main/java/org/digitnary/traning/restcrudapp/dao/impl/InstructorDaoImpl.java:33 | the entity gets the current value of its kind's sequence as id, that sequence advances by one and the other four stay as they were, and the other rows stay as they were; no other entity's id may change |
| Store.EntityStore.StoreInstructor | src/main/java/org/digitnary/traning/restcrudapp/dao/impl/InstructorDaoImpl.java:33 | stores the new instructor under the current value of the instructor sequence, which advances by one; the table gains exactly that row; every table stays valid |
| Store.EntityStore.StoreDetail | src/main/java/org/digitnary/traning/restcrudapp/entity/Instructor.java:110-111 | stores the new detail under the current value of the detail sequence, which advances by one; the table gains exactly that row; every table stays valid |
| Store.EntityStore.StoreCourse | src/main/java/org/digitnary/traning/restcrudapp/dao/impl/InstructorDaoImpl.java:137 | stores the new course under the current value of the course sequence, which advances by one; the table gains exactly that row; every table stays valid |
| Store.EntityStore.StoreReview | src/main/java/org/digitnary/traning/restcrudapp/entity/Course.java:110-111 | stores the new review under the current value of the review sequence, which advances by one; the table gains exactly that row; every table stays valid |
| Store.EntityStore.StoreStudent | src/main/java/org/digitnary/traning/restcrudapp/dao/impl/InstructorDaoImpl.java:149 | stores the new student under the current value of the student sequence, which advances by one; the table gains exactly that row; every table stays valid |
| Store.EntityStore.AssignInstructorId | src/main/java/org/digitnary/traning/restcrudapp/dao/impl/InstructorDaoImpl.java:33 | the instructor takes the current value of the instructor sequence as id and is stored under it; the sequence advances by one; the table is the old one plus exactly that row, so no other row changes |
| Store.EntityStore.AssignDetailId | src/main/java/org/digitnary/traning/restcrudapp/entity/Instructor.java:110-111 | the detail takes the current value of the detail sequence as id and is stored under it; the sequence advances by one; the table is the old one plus exactly that row, so no other row changes |
| Store.EntityStore.AssignCourseId | src/main/java/org/digitnary/traning/restcrudapp/dao/impl/InstructorDaoImpl.java:137 | the course takes the current value of the course sequence as id and is stored under it; the sequence advances by one; the table is the old one plus exactly that row, so no other row changes |
| Store.EntityStore.AssignReviewId | src/main/java/org/digitnary/traning/restcrudapp/entity/Course.java:110-111 | the review takes the current value of the review sequence as id and is stored under it; the sequence advances by one; the table is the old one plus exactly that row, so no other row changes |
| Store.EntityStore.AssignStudentId | src/main/java/org/digitnary/traning/restcrudapp/dao/impl/InstructorDaoImpl.java:149 | the student takes the current value of the student sequence as id and is stored under it; the sequence advances by one; the table is the old one plus exactly that row, so no other row changes |
| Store.EntityStore.RemoveInstructor | src/main/java/org/digitnary/traning/restcrudapp/dao/impl/InstructorDaoImpl.java:47 | null or detached gives IllegalArgument; a new instructor is ignored; a stored course naming it gives ConstraintViolation; otherwise the instructor and, by the ALL cascade, its detail are removed; the constraints are kept |
| Store.EntityStore.RemoveDetail | src/main/java/org/digitnary/traning/restcrudapp/dao/impl/InstructorDaoImpl.java:94 | null or detached gives IllegalArgument; a detail a stored instructor still holds gives ConstraintViolation; otherwise exactly that row goes |
| Store.EntityStore.RemoveCourse | src/main/java/org/digitnary/traning/restcrudapp/dao/impl/InstructorDaoImpl.java:132 | null or detached gives IllegalArgument; otherwise the course and, by the ALL cascade, its listed stored reviews go; its instructor and students stay |
| Store.EntityStore.RemoveStudent | src/main/java/org/digitnary/traning/restcrudapp/dao/impl/InstructorDaoImpl.java:173 | null or detached gives IllegalArgument; otherwise only the student's row goes; its courses stay |
| Dao.SingleResult | src/main/java/org/digitnary/traning/restcrudapp/dao/impl/InstructorDaoImpl.java:67 | `getSingleResult`: the row when exactly one matched, NoResult iff none, NonUniqueResult iff several |
| Dao.InstructorDao.constructor | src/main/java/org/digitnary/traning/restcrudapp/dao/impl/InstructorDaoImpl.java:27-29 | keeps the injected entity manager |
| Dao.InstructorDao.FindById | src/main/java/org/digitnary/traning/restcrudapp/dao/impl/InstructorDaoImpl.java:53-55 | the instructor stored under the id, or null exactly when no instructor has that id |
| Dao.InstructorDao.FindDetailById | src/main/java/org/digitnary/traning/restcrudapp/dao/impl/InstructorDaoImpl.java:85-87 | the detail stored under the id, or null exactly when none has it |
| Dao.InstructorDao.FindCourseById | src/main/java/org/digitnary/traning/restcrudapp/dao/impl/InstructorDaoImpl.java:107-109 | the course stored under the id, or null exactly when none has it |
| Dao.InstructorDao.FindAll | src/main/java/org/digitnary/traning/restcrudapp/dao/impl/InstructorDaoImpl.java:58-60 | every stored instructor and only those, each found again by its id |
| Dao.InstructorDao.FindByName | src/main/java/org/digitnary/traning/restcrudapp/dao/impl/InstructorDaoImpl.java:63-68 | the unique stored instructor with both names; NoResult iff a name is null or none matches; NonUniqueResult iff two different stored instructors match |
| Dao.InstructorDao.FindByEmail | src/main/java/org/digitnary/traning/restcrudapp/dao/impl/InstructorDaoImpl.java:71-74 | the unique stored instructor with the email; NoResult iff the email is null or none matches; NonUniqueResult iff two different stored instructors match |
| Dao.InstructorDao.FindByYoutubeChannel | src/main/java/org/digitnary/traning/restcrudapp/dao/impl/InstructorDaoImpl.java:77-82 | the unique stored instructor whose detail has the channel (inner join); NoResult iff none matches; NonUniqueResult iff two different stored instructors match |
| Dao.InstructorDao.FindByInstructor | src/main/java/org/digitnary/traning/restcrudapp/dao/impl/InstructorDaoImpl.java:101-104 | NullReference iff the instructor is null; otherwise exactly the stored courses whose instructor has its id |
| Dao.InstructorDao.FindCourseAndInstructor | src/main/java/org/digitnary/traning/restcrudapp/dao/impl/InstructorDaoImpl.java:112-116 | the course stored under the id; NullReference iff there is none or it has no instructor |
| Dao.InstructorDao.FindInstructorByJoinFetch | src/main/java/org/digitnary/traning/restcrudapp/dao/impl/InstructorDaoImpl.java:118-122 | the stored instructor, found iff some stored course names it; NoResult otherwise |
| Dao.InstructorDao.FindCourseAndReviewsById | src/main/java/org/digitnary/traning/restcrudapp/dao/impl/InstructorDaoImpl.java:141-145 | the stored course, found iff a stored review is in its list; NoResult otherwise |
| Dao.InstructorDao.FindCourseWithItsStudentById | src/main/java/org/digitnary/traning/restcrudapp/dao/impl/InstructorDaoImpl.java:153-157 | the stored course, found iff a stored student shares a join row with it; NoResult otherwise |
| Dao.InstructorDao.FindStudentsAndHisCoursesById | src/main/java/org/digitnary/traning/restcrudapp/dao/impl/InstructorDaoImpl.java:160-164 | the stored student, found iff a stored course shares a join row with it; NoResult otherwise |
| Dao.InstructorDao.Owners | src/main/java/org/digitnary/traning/restcrudapp/dao/impl/InstructorDaoImpl.java:93 | the instructors loading `detail.getInstructor()` reads: exactly the stored ones holding the detail |
| Dao.InstructorDao.FindByInstructorNamesInstructor | src/main/java/org/digitnary/traning/restcrudapp/dao/impl/InstructorDaoImpl.java:101-104 | under the constraints, selecting by instructor id gives exactly the stored courses naming that instructor |
| Dao.InstructorDao.JoinFetchNeedsCourses | src/main/java/org/digitnary/traning/restcrudapp/dao/impl/InstructorDaoImpl.java:118-122 | a stored instructor is found by the JOIN FETCH finder iff `findByInstructor` lists a course for it |
| Dao.InstructorDao.FindsLinkedCourse | src/main/java/org/digitnary/traning/restcrudapp/dao/impl/InstructorDaoImpl.java:153-157 | a stored course linked to a stored student is found with its students |
| Dao.InstructorDao.FindsLinkedStudent | src/main/java/org/digitnary/traning/restcrudapp/dao/impl/InstructorDaoImpl.java:160-164 | a stored student linked to a stored course is found with its courses |
| Dao.InstructorDao.Create | src/main/java/org/digitnary/traning/restcrudapp/dao/impl/InstructorDaoImpl.java:32-34 | null gives IllegalArgument; otherwise it passes iff the cascade reaches only new entities and no detail clash, fails with DetachedEntity or ConstraintViolation exactly in the other cases, and a failure leaves the tables as they were (the model also keeps the ids and the sequences, see Left out); on success the cascade is stored, no stored row changes, and the instructor is found by its new id; only the ids of the entities the cascade reaches may change |
| Dao.InstructorDao.SaveCourse | src/main/java/org/digitnary/traning/restcrudapp/dao/impl/InstructorDaoImpl.java:136-138 | as `Create`, from a course; the course is then found by its new id; only the ids of the entities the cascade reaches may change |
| Dao.InstructorDao.SaveStudent | src/main/java/org/digitnary/traning/restcrudapp/dao/impl/InstructorDaoImpl.java:148-150 | as `Create`, from a student; the student is then stored under its new id; only the ids of the entities the cascade reaches may change |
| Dao.InstructorDao.ClearInstructor | src/main/java/org/digitnary/traning/restcrudapp/dao/impl/InstructorDaoImpl.java:45-46 | the loop leaves every fetched course without an instructor |
| Dao.InstructorDao.DetachCourses | src/main/java/org/digitnary/traning/restcrudapp/dao/impl/InstructorDaoImpl.java:45-46 | exactly the stored courses naming the instructor lose it; no stored course names it afterwards; the constraints are kept |
| Dao.InstructorDao.RemoveWithCourses | src/main/java/org/digitnary/traning/restcrudapp/dao/impl/InstructorDaoImpl.java:45-47 | the instructor's courses are detached and stay stored; the instructor and its detail are removed |
| Dao.InstructorDao.Delete | src/main/java/org/digitnary/traning/restcrudapp/dao/impl/InstructorDaoImpl.java:42-50 | passes iff the JOIN FETCH finder finds the instructor, else NoResult and nothing changes; on success the instructor and its detail are gone and its courses stay with a null instructor |
| Dao.InstructorDao.DeleteById | src/main/java/org/digitnary/traning/restcrudapp/dao/impl/InstructorDaoImpl.java:42-50 | the corrected deletion: always passes; no instructor has the id afterwards; detail and course effects as in `Delete` |
| Dao.InstructorDao.DeleteDetailById | src/main/java/org/digitnary/traning/restcrudapp/dao/impl/InstructorDaoImpl.java:90-98 | a missing detail gives null and changes nothing; no owner gives NullReference; several give NonUniqueResult; otherwise the owner's `detail` is cleared, the detail row goes, the instructor stays and the detail is returned |
| Dao.InstructorDao.DeleteCourse | src/main/java/org/digitnary/traning/restcrudapp/dao/impl/InstructorDaoImpl.java:130-133 | a missing course is IllegalArgument; otherwise the course and its listed stored reviews go, and its instructor and students stay |
| Dao.InstructorDao.DeleteStudentById | src/main/java/org/digitnary/traning/restcrudapp/dao/impl/InstructorDaoImpl.java:172-174 | passes iff the JOIN FETCH finder finds the student, else NoResult; on success only the student's row goes |
| Dao.InstructorDao.DeleteStudent | src/main/java/org/digitnary/traning/restcrudapp/dao/impl/InstructorDaoImpl.java:172-174 | the corrected deletion: a stored student is removed whatever its courses; a missing one is IllegalArgument |
| Scenarios.PersistIntoEmpty | src/main/java/org/digitnary/traning/restcrudapp/dao/impl/InstructorDaoImpl.java:33 | a persist of a new closed graph into an empty store, with no shared details, cannot fail |
| Scenarios.CreateAgain | src/main/java/org/digitnary/traning/restcrudapp/dao/impl/InstructorDaoImpl.java:23-34 | creating an instructor that is already stored fails with DetachedEntity and changes nothing, because the new transaction does not manage it |
| Scenarios.LoneInstructors | src/main/java/org/digitnary/traning/restcrudapp/entity/Instructor.java:110-136 | an instructor without detail or course set reaches only itself |
| Scenarios.CreateTwoInstructors | src/main/java/org/digitnary/traning/restcrudapp/dao/impl/InstructorDaoImpl.java:32-34 | two creates over one object graph both pass: the first leaves the second instructor's id at 0, and both are then found by id |
| Scenarios.CreateLone | src/main/java/org/digitnary/traning/restcrudapp/dao/impl/InstructorDaoImpl.java:32-34 | creating a new instructor that reaches only itself passes, is found by its id and keeps every stored row |
| Scenarios.EmptyDao | src/main/java/org/digitnary/traning/restcrudapp/dao/impl/InstructorDaoImpl.java:27-29 | a data-access object over a fresh, empty, consistent store |
| Scenarios.CourseWithReviews | src/main/java/org/digitnary/traning/restcrudapp/JpaHibernateApplication.java:164-169 | a new course with two reviews forms a closed graph that its persist reaches entirely |
| Scenarios.NewCourseWithReviews | src/main/java/org/digitnary/traning/restcrudapp/JpaHibernateApplication.java:165-169 | builds the course and its two distinct reviews, in order |
| Scenarios.CreateNewCourse | src/main/java/org/digitnary/traning/restcrudapp/JpaHibernateApplication.java:164-171 | saving the course stores both reviews by cascade; the course is found by id |
| Scenarios.CourseWithReviewsSaved | src/main/java/org/digitnary/traning/restcrudapp/JpaHibernateApplication.java:170 | once stored, the course is found by id and both reviews are held |
| Scenarios.NewCourseWithStudents | src/main/java/org/digitnary/traning/restcrudapp/JpaHibernateApplication.java:134-140 | builds a course holding two distinct new students |
| Scenarios.CourseWithStudents | src/main/java/org/digitnary/traning/restcrudapp/JpaHibernateApplication.java:134-140 | that graph is closed and its persist reaches all three |
| Scenarios.CreateCourseWithStudent | src/main/java/org/digitnary/traning/restcrudapp/JpaHibernateApplication.java:132-143 | saving the course stores both students by cascade; the course is then found with its students |
| Scenarios.CourseWithStudentsSaved | src/main/java/org/digitnary/traning/restcrudapp/JpaHibernateApplication.java:142 | once stored, both students are held and the course is found with its students |
| Scenarios.NewStudentWithCourses | src/main/java/org/digitnary/traning/restcrudapp/JpaHibernateApplication.java:151-155 | builds a student enrolled in two distinct new courses |
| Scenarios.StudentWithCourses | src/main/java/org/digitnary/traning/restcrudapp/JpaHibernateApplication.java:151-155 | that graph is closed and its persist reaches all three |
| Scenarios.CreateStudent | src/main/java/org/digitnary/traning/restcrudapp/JpaHibernateApplication.java:150-157 | saving the student stores both courses by cascade; the student is then found with its courses |
| Scenarios.StudentWithCoursesSaved | src/main/java/org/digitnary/traning/restcrudapp/JpaHibernateApplication.java:156 | once stored, each course is found by id and the student with its courses |
| Scenarios.NewInstructorWithCourses | src/main/java/org/digitnary/traning/restcrudapp/JpaHibernateApplication.java:53-59 | builds the instructor with its detail (back-reference null) and three distinct courses naming it |
| Scenarios.InstructorWithCourses | src/main/java/org/digitnary/traning/restcrudapp/JpaHibernateApplication.java:53-59 | that graph is closed and its persist reaches all of it |
| Scenarios.InstructorSaved | src/main/java/org/digitnary/traning/restcrudapp/JpaHibernateApplication.java:269-271 | once stored, the instructor is found by id and its detail and courses are held |
| Scenarios.SaveNewInstructor | src/main/java/org/digitnary/traning/restcrudapp/JpaHibernateApplication.java:269-271 | creating a new instructor graph through an empty store passes and stores exactly that graph |
| Scenarios.CreateInstructorWithCourses | src/main/java/org/digitnary/traning/restcrudapp/JpaHibernateApplication.java:53-60 | creating the instructor stores its detail and its three courses by cascade |
| Scenarios.NewInstructor | src/main/java/org/digitnary/traning/restcrudapp/JpaHibernateApplication.java:53 | builds an instructor with a detail and an empty course set |
| Scenarios.DeleteUntaught | src/main/java/org/digitnary/traning/restcrudapp/JpaHibernateApplication.java:248-252 | for a stored instructor no course names, `delete` gives NoResult, while the corrected deletion passes and removes it |
| Scenarios.DeleteInstructorWithoutCourses | src/main/java/org/digitnary/traning/restcrudapp/dao/impl/InstructorDaoImpl.java:42-50 | create then delete of an instructor without courses: the deletion fails with NoResult |
| Scenarios.SaveLoneStudent | src/main/java/org/digitnary/traning/restcrudapp/dao/impl/InstructorDaoImpl.java:148-150 | saving a never-enrolled student into an empty store stores it alone |
| Scenarios.DeleteUnenrolled | src/main/java/org/digitnary/traning/restcrudapp/JpaHibernateApplication.java:86-89 | for a stored student no course is linked to, `deleteStudentById` gives NoResult, while the corrected deletion passes and removes it |
| Scenarios.DeleteStudentWithoutCourses | src/main/java/org/digitnary/traning/restcrudapp/dao/impl/InstructorDaoImpl.java:172-174 | save then delete-by-id of a student without courses: the deletion fails with NoResult |
| Scenarios.AddCourseTwice | src/main/java/org/digitnary/traning/restcrudapp/entity/Instructor.java:177-184 | adding the same course twice leaves the set that adding it once leaves; without a set both calls throw |
| Scenarios.EnrollTwice | src/main/java/org/digitnary/traning/restcrudapp/entity/Student.java:153-158 | enrolling in the same course twice leaves the set that enrolling once leaves |
| Scenarios.AddStudentTwice | src/main/java/org/digitnary/traning/restcrudapp/entity/Course.java:171-176 | adding the same student twice leaves the set that adding it once leaves |
| Scenarios.AddReviewTwice | src/main/java/org/digitnary/traning/restcrudapp/entity/Course.java:159-164 | adding the same review twice keeps both copies: the length grows by two |

## Left out

- `update`, `updateCourse` and `updateStudent` (`em.merge`) are not modelled. Merge copies a detached graph onto managed entities, and that deep copy is library behaviour.
- Transactions, rollback across several operations, and concurrency are not modelled. Each DAO operation is one atomic step, and a failed operation leaves the tables as they were.
- Store.EntityStore.Persist, Dao.InstructorDao.Create, Dao.InstructorDao.SaveCourse, Dao.InstructorDao.SaveStudent: a failed call also keeps every id and sequence in the model. In the source, `persist` draws a SEQUENCE id and sets it on each entity before cascading on, and a ConstraintViolation only surfaces at flush or commit. After the rollback the objects keep the ids drawn before the exception (every reached one on a ConstraintViolation, those visited before the detached one on a DetachedEntity), and the database sequences stay advanced. The model checks every failure before drawing any id, so a retry of the same graph after a failure can pass in the model where the source reports a detached entity.
- The JPQL text, fetch types (LAZY/EAGER), logging, `toString` and the message `addCourse(null)` prints are not modelled. The message is output only.
- A stored row is the entity object itself, and a finder returns that object. In the source each transaction loads new copies of the rows, and an edit to a detached entity reaches the table only through a merge. In the model an edit made to an entity after the call that stored it shows in later finds. Copying rows in and out of a context is not modelled.
- `course_student` is mapped as owned by both `Course.students` and `Student.courses`. A new pair listed on both sides would be inserted twice, and a primary key on the join table would reject the second insert. The model keeps one link per pair and does not model that failure, because the schema of the join table is not part of the source.
- `@Email` bean validation is not modelled. It is a foreign validator.
- Ids are unbounded integers. The 32-bit `int` of the entities and the sequence tables' wrap-around are not modelled.
- `findAll` returns a list in database order. The model returns the set of stored instructors, since the query has no ORDER BY.
- A review listed by two courses is not modelled. The `course_id` join column gives a review one owner, and the model does not check that. A detached review in a course's list makes `em.remove` fail with IllegalArgument.
- The single-result finders follow the code rather than the interface's documentation. The documentation says they return null when nothing is found; `getSingleResult` throws instead, and the model returns NoResult or NonUniqueResult.
- Dao.InstructorDao.Delete: requires the schema's constraints, as a database that enforces its foreign keys guarantees.
- Dao.InstructorDao.DeleteById: requires the schema's constraints, for the same reason.
- Dao.InstructorDao.DeleteDetailById: the owner of a detail is read from the instructors' foreign keys. This assumes a fresh persistence context, so a back-reference set only in memory is not what is loaded.
- Dao.InstructorDao.Create, Dao.InstructorDao.SaveCourse and Dao.InstructorDao.SaveStudent take a ghost `heap`: any cascade-closed part of the object graph that holds the argument. What a persist reaches does not depend on it (`Cascade.ReachableUnique`).
- Scenarios.CreateNewCourse states that the course is found by id and the reviews are held. It does not restate the order of the course's review list after the save.
- Scenarios.CreateInstructorWithCourses does not state the JOIN FETCH result for the saved instructor. `Dao.InstructorDao.JoinFetchNeedsCourses` gives that result for any stored instructor that a stored course names.
- The runner's commented-out flows that only read and log (`getById`, `getDetailById`, `getByYoutube`, `findCourseStudentshipsById`, `findStudentWithHisCourses`) have no scenario of their own. They call the finders above.
- `addCourseToStudent` and `updateInstructor` in the runner end in a merge, which is not modelled.

## Findings

| source | as written | input that shows it | evidently intended | confidence | as-written member | corrected member |
|---|---|---|---|---|---|---|
| src/main/java/org/digitnary/traning/restcrudapp/dao/impl/InstructorDaoImpl.java:42-50 | `delete` loads the instructor with an inner JOIN FETCH over its courses, which matches no row for an instructor without courses; `getSingleResult` then throws, and the null check at line 44 can never be false | a stored instructor that no stored course names, e.g. one created with an empty course set | such an instructor is deleted too, with its detail, and a missing id is no error | not executed; high (JPA specifies NoResultException for an empty single result) | Scenarios.DeleteInstructorWithoutCourses | Dao.InstructorDao.DeleteById |
| src/main/java/org/digitnary/traning/restcrudapp/dao/impl/InstructorDaoImpl.java:172-174 | `deleteStudentById` loads the student with an inner JOIN FETCH over its courses, so a student in no course is never found and cannot be deleted | a stored student that no stored course is linked to, e.g. one saved without enrolling | the student is deleted whatever its courses | not executed; medium (the runner only deletes a student it enrolled) | Scenarios.DeleteStudentWithoutCourses | Dao.InstructorDao.DeleteStudent |
