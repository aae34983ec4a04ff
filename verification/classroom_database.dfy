/**
 * database/database.py, class ClassroomDatabase: the classrooms collection, keyed by
 * `classroom_id`, whose records hold the arrays `teachers`, `students` and `tasks`; each
 * student entry `{"id": ...}` may hold the array `tasks` of that student's submissions.
 */
module ClassroomDb {
  import opened Wrappers
  import opened Store

  function ClassroomKey(cid: Value): Key
  {
    Key("classroom_id", cid)
  }

  /** `get_info(classroom_id)`: the classroom's record, if any. */
  function GetInfo(rs: seq<Record>, cid: Value): (r: Option<Record>)
    ensures r.Some? ==> r.value in rs && Matches(r.value, ClassroomKey(cid))
    ensures r.None? <==> forall j | 0 <= j < |rs| :: !Matches(rs[j], ClassroomKey(cid))
  {
    FindOne(rs, ClassroomKey(cid))
  }

  /** `{**{"classroom_id": classroom_id, "teachers": [teacher_id]}, **additional}` */
  function RawClassroom(cid: string, tid: int, additional: Record): (r: Record)
    ensures r.Keys == additional.Keys + {"classroom_id", "teachers"}
    ensures forall f | f in additional :: r[f] == additional[f]
    ensures "classroom_id" !in additional ==> Matches(r, ClassroomKey(Str(cid)))
    ensures "teachers" !in additional ==> r["teachers"] == Arr([Int(tid)])
  {
    map["classroom_id" := Str(cid), "teachers" := Arr([Int(tid)])] + additional
  }

  /** `add_raw(classroom_id, teacher_id, additional)` */
  method AddRaw(db: Database, cid: string, tid: int, additional: Record)
    modifies db
    ensures db.records == Uploaded(old(db.records), ClassroomKey(Str(cid)), RawClassroom(cid, tid, additional))
  {
    db.Upload(ClassroomKey(Str(cid)), RawClassroom(cid, tid, additional));
  }

  /** A freshly created classroom reads back with its one teacher and no students or tasks. */
  lemma AddRawCreates(rs: seq<Record>, cid: string, tid: int, name: string)
    ensures var out := Uploaded(rs, ClassroomKey(Str(cid)), RawClassroom(cid, tid, map["name" := Str(name)]));
      && GetInfo(out, Str(cid)).Some?
      && var c := GetInfo(out, Str(cid)).value;
      && c.Keys == {"classroom_id", "teachers", "name"}
      && c["teachers"] == Arr([Int(tid)]) && c["name"] == Str(name)
  {
    UploadedFindOne(rs, ClassroomKey(Str(cid)), RawClassroom(cid, tid, map["name" := Str(name)]));
  }

  /** The `{"id": ...}` entry that `add_student` and `add_teacher` append. */
  function IdEntry(sid: int): Value
  {
    Doc(map["id" := Int(sid)])
  }

  /** `add_student(student_id, classroom_id)`: true iff the classroom exists. */
  method AddStudent(db: Database, sid: int, cid: Value) returns (r: Result<bool, DbError>)
    modifies db
    ensures var pushed := Pushed(old(db.records), ClassroomKey(cid), Field("students"), [IdEntry(sid)]);
      && (pushed.Success? ==> r == Success(GetInfo(old(db.records), cid).Some?) && db.records == pushed.value)
      && (pushed.Failure? ==> r == Failure(pushed.error) && db.records == old(db.records))
  {
    r := db.ArrayAppend(ClassroomKey(cid), Field("students"), [IdEntry(sid)]);
  }

  /** `add_teacher(teacher_id, classroom_id)` */
  method AddTeacher(db: Database, tid: int, cid: Value) returns (r: Result<bool, DbError>)
    modifies db
    ensures var pushed := Pushed(old(db.records), ClassroomKey(cid), Field("teachers"), [IdEntry(tid)]);
      && (pushed.Success? ==> r == Success(GetInfo(old(db.records), cid).Some?) && db.records == pushed.value)
      && (pushed.Failure? ==> r == Failure(pushed.error) && db.records == old(db.records))
  {
    r := db.ArrayAppend(ClassroomKey(cid), Field("teachers"), [IdEntry(tid)]);
  }

  /** A student added twice is listed twice, after the students already there: `add_student` never looks for duplicates. */
  lemma AddStudentTwice(rs: seq<Record>, sid: int, cid: Value)
    requires GetInfo(rs, cid).Some?
    requires var c := GetInfo(rs, cid).value; "students" !in c || c["students"].Arr?
    ensures var once := Pushed(rs, ClassroomKey(cid), Field("students"), [IdEntry(sid)]);
      && once.Success?
      && var twice := Pushed(once.value, ClassroomKey(cid), Field("students"), [IdEntry(sid)]);
      && twice.Success?
      && var before := GetInfo(rs, cid).value;
      && var c := GetInfo(twice.value, cid);
      && c.Some? && "students" in c.value
      && c.value["students"] ==
           Arr((if "students" in before then before["students"].items else []) + [IdEntry(sid), IdEntry(sid)])
  {
    PushTwiceDuplicates(rs, ClassroomKey(cid), Field("students"), IdEntry(sid));
  }

  /** The entry `add_task` appends: `{"id": task_id, "creator_id": creator_id, **info}`. */
  function TaskEntry(taskId: string, creatorId: int, info: Record): (v: Value)
    ensures v.Doc? && v.fields.Keys == info.Keys + {"id", "creator_id"}
    ensures forall f | f in info :: v.fields[f] == info[f]
    ensures "id" !in info ==> v.fields["id"] == Str(taskId)
  {
    Doc(map["id" := Str(taskId), "creator_id" := Int(creatorId)] + info)
  }

  /** `add_task(task_id, creator_id, classroom_id, info)` */
  method AddTask(db: Database, taskId: string, creatorId: int, cid: Value, info: Record) returns (r: Result<bool, DbError>)
    modifies db
    ensures var pushed := Pushed(old(db.records), ClassroomKey(cid), Field("tasks"), [TaskEntry(taskId, creatorId, info)]);
      && (pushed.Success? ==> r == Success(GetInfo(old(db.records), cid).Some?) && db.records == pushed.value)
      && (pushed.Failure? ==> r == Failure(pushed.error) && db.records == old(db.records))
  {
    r := db.ArrayAppend(ClassroomKey(cid), Field("tasks"), [TaskEntry(taskId, creatorId, info)]);
  }

  // ---------------------------------------------------------------------------
  // submit_task

  /** `student["id"]`: a KeyError for an entry without it (or that is not a dict). */
  function IdOf(student: Value): (r: Result<Value, DbError>)
    ensures r.Success? <==> student.Doc? && "id" in student.fields
  {
    if student.Doc? && "id" in student.fields then Success(student.fields["id"]) else Failure(MissingField("id"))
  }

  /**
   * What the `for index, student in enumerate(...)` loop with `break` leaves in
   * `student_array_id`, looking from position `from` on: the first entry whose id equals
   * the student's, `None` when there is none, or the KeyError of a malformed entry met first.
   */
  function StudentIndex(students: seq<Value>, sid: int, from: nat): (r: Result<Option<nat>, DbError>)
    requires from <= |students|
    ensures r.Success? && r.value.Some? ==>
      && from <= r.value.value < |students|
      && IdOf(students[r.value.value]) == Success(Int(sid))
      && forall j | from <= j < r.value.value :: IdOf(students[j]).Success? && IdOf(students[j]).value != Int(sid)
    ensures r == Success(None) ==>
      forall j | from <= j < |students| :: IdOf(students[j]).Success? && IdOf(students[j]).value != Int(sid)
    decreases |students| - from
  {
    if from == |students| then Success(None)
    else
      match IdOf(students[from])
      case Failure(e) => Failure(e)
      case Success(id) => if id == Int(sid) then Success(Some(from)) else StudentIndex(students, sid, from + 1)
  }

  /** The path `f"students.{student_array_id}.tasks"`. */
  function SubmissionsPath(index: Option<nat>): ArrayPath
  {
    Nested("students", index, "tasks")
  }

  /** The `$pull` condition `{"task_id": info["task_id"]}`. */
  function SameTask(taskId: Value): Condition
  {
    FieldsEqual(map["task_id" := taskId])
  }

  /** The records after `submit_task(student_id, classroom_id, info)`, or the error it raises. */
  function Submitted(rs: seq<Record>, sid: int, cid: Value, info: Record): Result<seq<Record>, DbError>
  {
    match GetInfo(rs, cid)
    case None => Failure(NoRecord)
    case Some(classroom) =>
      if "students" !in classroom then Failure(MissingField("students"))
      else if !classroom["students"].Arr? then Failure(NotAnArray(Field("students")))
      else
        match StudentIndex(classroom["students"].items, sid, 0)
        case Failure(e) => Failure(e)
        case Success(index) =>
          if "task_id" !in info then Failure(MissingField("task_id"))
          else
            match Pulled(rs, ClassroomKey(cid), SubmissionsPath(index), SameTask(info["task_id"]))
            case Failure(e) => Failure(e)
            case Success(pulled) => Pushed(pulled, ClassroomKey(cid), SubmissionsPath(index), [Doc(info)])
  }

  /** Once the pull on a path succeeded, the push on the same path cannot fail. */
  lemma PushAfterPull(rs: seq<Record>, key: Key, p: ArrayPath, c: Condition, elements: seq<Value>)
    requires key.field != p.Root()
    requires Pulled(rs, key, p, c).Success?
    ensures Pushed(Pulled(rs, key, p, c).value, key, p, elements).Success?
  {
    if FirstMatch(rs, key).Some? {
      var i := PulledAt(rs, key, p, c);
    } else {
      PullRemovesAll(rs, key, p, c);
    }
  }

  /** `submit_task`: find the student's position, `$pull` the earlier submission for that task id, `$push` the new one. */
  method SubmitTask(db: Database, sid: int, cid: Value, info: Record) returns (err: Option<DbError>)
    modifies db
    ensures Submitted(old(db.records), sid, cid, info).Success? ==>
      err.None? && db.records == Submitted(old(db.records), sid, cid, info).value
    ensures Submitted(old(db.records), sid, cid, info).Failure? ==>
      err == Some(Submitted(old(db.records), sid, cid, info).error) && db.records == old(db.records)
  {
    var found := GetInfo(db.records, cid);
    if found.None? {
      return Some(NoRecord);
    }
    var classroom := found.value;
    if "students" !in classroom {
      return Some(MissingField("students"));
    }
    if !classroom["students"].Arr? {
      return Some(NotAnArray(Field("students")));
    }
    var students := classroom["students"].items;
    var index: Option<nat> := None;
    var k := 0;
    while k < |students|
      invariant 0 <= k <= |students|
      invariant StudentIndex(students, sid, 0) == StudentIndex(students, sid, k)
    {
      var id := IdOf(students[k]);
      if id.Failure? {
        return Some(id.error);
      }
      if id.value == Int(sid) {
        index := Some(k);
        break;
      }
      k := k + 1;
    }
    assert StudentIndex(students, sid, 0) == Success(index);
    if "task_id" !in info {
      return Some(MissingField("task_id"));
    }
    var path := SubmissionsPath(index);
    var removed := db.ArrayRemove(ClassroomKey(cid), path, SameTask(info["task_id"]));
    if removed.Failure? {
      return Some(removed.error);
    }
    PushAfterPull(old(db.records), ClassroomKey(cid), path, SameTask(info["task_id"]), [Doc(info)]);
    var _ := db.ArrayAppend(ClassroomKey(cid), path, [Doc(info)]);
    return None;
  }

  /** The submissions of student `index` in a classroom record, `[]` when absent. */
  function SubmissionsOf(classroom: Record, index: nat): seq<Value>
  {
    match ArrayAt(classroom, SubmissionsPath(Some(index)))
    case Success(Some(items)) => items
    case _ => []
  }

  /**
   * A successful `submit_task` rewrites one array only: the student's submissions become
   * the old ones without those for that task id, followed by `info`.
   */
  lemma SubmittedRewrites(rs: seq<Record>, sid: int, cid: Value, info: Record)
    requires Submitted(rs, sid, cid, info).Success?
    ensures var i := FirstMatch(rs, ClassroomKey(cid)).value;
      && "students" in rs[i] && rs[i]["students"].Arr?
      && StudentIndex(rs[i]["students"].items, sid, 0).Success?
      && StudentIndex(rs[i]["students"].items, sid, 0).value.Some?
      && var index := StudentIndex(rs[i]["students"].items, sid, 0).value.value;
      && "task_id" in info
      && ArrayAt(rs[i], SubmissionsPath(Some(index))).Success?
      && Submitted(rs, sid, cid, info).value
         == rs[i := WithArray(rs[i], SubmissionsPath(Some(index)),
                              Removed(SubmissionsOf(rs[i], index), SameTask(info["task_id"])) + [Doc(info)])]
  {
    var key := ClassroomKey(cid);
    var i := FirstMatch(rs, key).value;
    var index := StudentIndex(rs[i]["students"].items, sid, 0).value;
    var p := SubmissionsPath(index);
    var c := SameTask(info["task_id"]);
    var pulled := Pulled(rs, key, p, c).value;
    var i' := PulledAt(rs, key, p, c);
    assert Submitted(rs, sid, cid, info) == Pushed(pulled, key, p, [Doc(info)]);
    var before := ArrayAt(rs[i], p).value;
    var after := Removed(SubmissionsOf(rs[i], index.value), c) + [Doc(info)];
    if before.Some? {
      WithArrayTwice(rs[i], p, Removed(before.value, c), after);
    } else {
      assert Removed([], c) == [];
    }
  }

  /**
   * After `submit_task` the student's submission list holds exactly one entry for that task id:
   * the new `info`, last; the student's other submissions keep their order. The other
   * records, the other students and the classroom's other fields are unchanged.
   */
  lemma SubmissionUnique(rs: seq<Record>, sid: int, cid: Value, info: Record)
    requires Submitted(rs, sid, cid, info).Success?
    ensures var out := Submitted(rs, sid, cid, info).value;
      var i := FirstMatch(rs, ClassroomKey(cid)).value;
      var index := StudentIndex(rs[i]["students"].items, sid, 0).value.value;
      var tasks := SubmissionsOf(out[i], index);
      && |out| == |rs|
      && (forall j | 0 <= j < |rs| && j != i :: out[j] == rs[j])
      && tasks == Removed(SubmissionsOf(rs[i], index), SameTask(info["task_id"])) + [Doc(info)]
      && (forall j | 0 <= j < |tasks| - 1 :: !ElementMatches(tasks[j], SameTask(info["task_id"])))
      && ElementMatches(tasks[|tasks| - 1], SameTask(info["task_id"]))
      && out[i]["students"].Arr?
      && |out[i]["students"].items| == |rs[i]["students"].items|
      && (forall j | 0 <= j < |rs[i]["students"].items| && j != index ::
            out[i]["students"].items[j] == rs[i]["students"].items[j])
      && (forall f | f in rs[i] && f != "students" :: out[i][f] == rs[i][f])
  {
    SubmittedRewrites(rs, sid, cid, info);
    var i := FirstMatch(rs, ClassroomKey(cid)).value;
    var index := StudentIndex(rs[i]["students"].items, sid, 0).value.value;
    var c := SameTask(info["task_id"]);
    var kept := Removed(SubmissionsOf(rs[i], index), c);
    var tasks := kept + [Doc(info)];
    WithNestedArrayFrame(rs[i], "students", index, "tasks", tasks);
    forall j | 0 <= j < |tasks| - 1 ensures !ElementMatches(tasks[j], c) {
      assert tasks[j] == kept[j] && kept[j] in kept;
    }
  }

  /** The loop's result depends only on the ids of the entries. */
  lemma {:induction false} StudentIndexSameIds(a: seq<Value>, b: seq<Value>, sid: int, from: nat)
    requires from <= |a| == |b|
    requires forall j | from <= j < |a| :: IdOf(a[j]) == IdOf(b[j])
    ensures StudentIndex(a, sid, from) == StudentIndex(b, sid, from)
    decreases |a| - from
  {
    if from < |a| {
      StudentIndexSameIds(a, b, sid, from + 1);
    }
  }

  /** `submit_task` succeeds once the classroom, the student and the submissions array can be found. */
  lemma SubmittedSucceeds(rs: seq<Record>, sid: int, cid: Value, info: Record, i: nat, index: nat)
    requires FirstMatch(rs, ClassroomKey(cid)) == Some(i)
    requires "students" in rs[i] && rs[i]["students"].Arr?
    requires StudentIndex(rs[i]["students"].items, sid, 0) == Success(Some(index))
    requires "task_id" in info
    requires ArrayAt(rs[i], SubmissionsPath(Some(index))).Success?
    ensures Submitted(rs, sid, cid, info).Success?
  {
    PushAfterPull(rs, ClassroomKey(cid), SubmissionsPath(Some(index)), SameTask(info["task_id"]), [Doc(info)]);
  }

  /** Rewriting one student's submissions keeps the classroom findable and the student where it was. */
  lemma RewriteKeepsStudent(rs: seq<Record>, sid: int, cid: Value, i: nat, index: nat, tasks: seq<Value>)
    requires FirstMatch(rs, ClassroomKey(cid)) == Some(i)
    requires "students" in rs[i] && rs[i]["students"].Arr?
    requires StudentIndex(rs[i]["students"].items, sid, 0) == Success(Some(index))
    requires ArrayAt(rs[i], SubmissionsPath(Some(index))).Success?
    ensures var out := rs[i := WithArray(rs[i], SubmissionsPath(Some(index)), tasks)];
      && FirstMatch(out, ClassroomKey(cid)) == Some(i)
      && "students" in out[i] && out[i]["students"].Arr?
      && StudentIndex(out[i]["students"].items, sid, 0) == Success(Some(index))
      && ArrayAt(out[i], SubmissionsPath(Some(index))) == Success(Some(tasks))
  {
    var out := rs[i := WithArray(rs[i], SubmissionsPath(Some(index)), tasks)];
    var students := rs[i]["students"].items;
    WithNestedArrayFrame(rs[i], "students", index, "tasks", tasks);
    assert FirstMatch(out, ClassroomKey(cid)) == Some(i) by {
      assert out[i]["classroom_id"] == rs[i]["classroom_id"];
      assert forall j | 0 <= j < i :: out[j] == rs[j];
    }
    var students' := out[i]["students"].items;
    assert IdOf(students'[index]) == IdOf(students[index]) by {
      assert students'[index].fields["id"] == students[index].fields["id"];
    }
    StudentIndexSameIds(students', students, sid, 0);
  }

  /** Submitting the same answer again changes nothing: `submit_task` is idempotent. */
  lemma SubmitTwice(rs: seq<Record>, sid: int, cid: Value, info: Record)
    requires Submitted(rs, sid, cid, info).Success?
    ensures var out := Submitted(rs, sid, cid, info).value;
      Submitted(out, sid, cid, info) == Success(out)
  {
    SubmittedRewrites(rs, sid, cid, info);
    var out := Submitted(rs, sid, cid, info).value;
    var i := FirstMatch(rs, ClassroomKey(cid)).value;
    var index := StudentIndex(rs[i]["students"].items, sid, 0).value.value;
    var p := SubmissionsPath(Some(index));
    var c := SameTask(info["task_id"]);
    var kept := Removed(SubmissionsOf(rs[i], index), c);
    var tasks := kept + [Doc(info)];
    RewriteKeepsStudent(rs, sid, cid, i, index, tasks);
    SubmittedSucceeds(out, sid, cid, info, i, index);
    SubmittedRewrites(out, sid, cid, info);
    assert Removed(tasks, c) == kept by {
      RemovedConcat(kept, [Doc(info)], c);
      RemovedNothing(kept, c);
    }
    WithArrayTwice(rs[i], p, tasks, tasks);
    UpdateSame(out, i, WithArray(out[i], p, tasks));
  }

  /** Writing back the record a collection already holds leaves the collection as it was. */
  lemma UpdateSame(rs: seq<Record>, i: nat, r: Record)
    requires i < |rs| && rs[i] == r
    ensures rs[i := r] == rs
  {
  }
}
