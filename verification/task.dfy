/**
 * infrastructure/task.py, class Task: a teacher's task draft. Files are appended to it and
 * its description overwritten until `prepare` pushes one task entry into the classroom's
 * `tasks` array. File contents arrive as bytes; reading them from disk is not modelled.
 */
module Tasks {
  import opened Wrappers
  import opened Strings
  import opened Store
  import ClassroomDb

  /** The description a draft starts with. */
  const DefaultDescription: string := "See attachments"

  /** A path component that `pathlib` keeps: empty components and "." are dropped. */
  predicate IsNameComponent(c: string)
  {
    c != "" && c != "."
  }

  /** The components of a split path that `pathlib` keeps, in order. */
  function NameComponents(parts: seq<string>): (r: seq<string>)
    ensures |r| <= |parts|
    ensures forall k | 0 <= k < |r| :: IsNameComponent(r[k]) && r[k] in parts
  {
    if |parts| == 0 then []
    else (if IsNameComponent(parts[0]) then [parts[0]] else []) + NameComponents(parts[1..])
  }

  lemma {:induction false} NameComponentsAppend(a: seq<string>, b: seq<string>)
    ensures NameComponents(a + b) == NameComponents(a) + NameComponents(b)
  {
    if |a| > 0 {
      assert (a + b)[1..] == a[1..] + b;
      NameComponentsAppend(a[1..], b);
    } else {
      assert a + b == b;
    }
  }

  /** `Path(file_path).name`: the last component that is neither empty nor ".", or "" if there is none. */
  function FileName(path: string): (name: string)
    ensures '/' !in name
    ensures name == "" || IsNameComponent(name)
  {
    var parts := NameComponents(Split(path, '/'));
    if |parts| == 0 then "" else parts[|parts| - 1]
  }

  /** The name of `dir/name` is `name`, whatever the directory. */
  lemma FileNameOfChild(dir: string, name: string)
    requires '/' !in name && IsNameComponent(name)
    ensures FileName(dir + "/" + name) == name
  {
    SplitAppend(dir, '/', name);
    NameComponentsAppend(Split(dir, '/'), [name]);
    assert NameComponents([name]) == [name];
  }

  /** A trailing slash, or a trailing "/.", does not change the name. */
  lemma FileNameIgnoresTrailing(path: string, tail: string)
    requires tail == "" || tail == "."
    ensures FileName(path + "/" + tail) == FileName(path)
  {
    SplitAppend(path, '/', tail);
    NameComponentsAppend(Split(path, '/'), [tail]);
    assert NameComponents([tail]) == [];
  }

  /**
   * `{"filename": ..., "file": Binary(...)}`, the entry `add_file` appends: the file's bytes,
   * under a bare name that holds no directory.
   */
  function FileEntry(path: string, bytes: seq<bv8>): (v: Value)
    ensures v.Doc? && v.fields.Keys == {"filename", "file"} && v.fields["file"] == Binary(bytes)
    ensures v.fields["filename"].Str? && '/' !in v.fields["filename"].s
    ensures v.fields["filename"].s == "" || IsNameComponent(v.fields["filename"].s)
  {
    Doc(map["filename" := Str(FileName(path)), "file" := Binary(bytes)])
  }

  /** A file at `dir/name` is stored under `name`, whatever the directory. */
  lemma FileEntryOfChild(dir: string, name: string, bytes: seq<bv8>)
    requires '/' !in name && IsNameComponent(name)
    ensures FileEntry(dir + "/" + name, bytes).fields["filename"] == Str(name)
  {
    FileNameOfChild(dir, name);
  }

  /** The `task_info` dict `prepare` builds. */
  function TaskInfo(files: seq<Value>, description: string): Record
  {
    map["files" := Arr(files), "description" := Str(description)]
  }

  /** The entry `prepare` appends: exactly id, creator, files and description. */
  function PreparedEntry(taskId: string, creatorId: int, files: seq<Value>, description: string): (v: Value)
    ensures v.Doc? && v.fields.Keys == {"id", "creator_id", "files", "description"}
    ensures v.fields["id"] == Str(taskId) && v.fields["creator_id"] == Int(creatorId)
    ensures v.fields["files"] == Arr(files) && v.fields["description"] == Str(description)
  {
    ClassroomDb.TaskEntry(taskId, creatorId, TaskInfo(files, description))
  }

  class Task {
    const taskId: string
    const creatorId: int
    const classroomId: string
    const classDb: Database
    const userDb: Database
    var files: seq<Value>
    var description: string

    /** `Task(task_id, creator_id, classroom_id, classroom_db, user_db)`: no files, the default description. */
    constructor (taskId: string, creatorId: int, classroomId: string, classDb: Database, userDb: Database)
      ensures this.taskId == taskId && this.creatorId == creatorId && this.classroomId == classroomId
      ensures this.classDb == classDb && this.userDb == userDb
      ensures files == [] && description == DefaultDescription
    {
      this.taskId := taskId;
      this.creatorId := creatorId;
      this.classroomId := classroomId;
      this.classDb := classDb;
      this.userDb := userDb;
      files := [];
      description := DefaultDescription;
    }

    /** `add_file(file_path)`, with the file's bytes given: one entry at the end, the rest untouched. */
    method AddFile(path: string, bytes: seq<bv8>)
      modifies this
      ensures files == old(files) + [FileEntry(path, bytes)]
      ensures description == old(description)
    {
      files := files + [FileEntry(path, bytes)];
    }

    /** `add_text_description(description)`: the last call wins; the files stay. */
    method AddTextDescription(text: string)
      modifies this
      ensures description == text
      ensures files == old(files)
    {
      description := text;
    }

    /**
     * `prepare()`: pushes the draft into the classroom's `tasks` array. The result of
     * `add_task` is dropped, so only a raised error comes back. The draft itself is untouched.
     */
    method Prepare() returns (err: Option<DbError>)
      modifies classDb
      ensures var pushed := Pushed(old(classDb.records), ClassroomDb.ClassroomKey(Str(classroomId)), Field("tasks"),
                                   [PreparedEntry(taskId, creatorId, files, description)]);
        && (pushed.Success? ==> err.None? && classDb.records == pushed.value)
        && (pushed.Failure? ==> err == Some(pushed.error) && classDb.records == old(classDb.records))
      ensures files == old(files) && description == old(description)
    {
      var r := ClassroomDb.AddTask(classDb, taskId, creatorId, Str(classroomId), TaskInfo(files, description));
      err := if r.Failure? then Some(r.error) else None;
    }
  }

  /**
   * `prepare` on an existing classroom whose `tasks` is an array or absent appends exactly one
   * entry at the end of it; other fields of that classroom and other records stay as they were.
   */
  lemma PrepareAppendsOne(rs: seq<Record>, cid: string, taskId: string, creatorId: int, files: seq<Value>, description: string)
    requires ClassroomDb.GetInfo(rs, Str(cid)).Some?
    requires var c := ClassroomDb.GetInfo(rs, Str(cid)).value; "tasks" !in c || c["tasks"].Arr?
    ensures var key := ClassroomDb.ClassroomKey(Str(cid));
      var pushed := Pushed(rs, key, Field("tasks"), [PreparedEntry(taskId, creatorId, files, description)]);
      && pushed.Success?
      && var i := FirstMatch(rs, key).value;
      && var out := pushed.value;
      && |out| == |rs|
      && (forall j | 0 <= j < |rs| && j != i :: out[j] == rs[j])
      && out[i].Keys == rs[i].Keys + {"tasks"}
      && (forall f | f in rs[i] && f != "tasks" :: out[i][f] == rs[i][f])
      && out[i]["tasks"] == Arr((if "tasks" in rs[i] then rs[i]["tasks"].items else [])
                                + [PreparedEntry(taskId, creatorId, files, description)])
  {
    var key := ClassroomDb.ClassroomKey(Str(cid));
    var entry := PreparedEntry(taskId, creatorId, files, description);
    PushAppendsAtEnd(rs, key, Field("tasks"), [entry]);
  }

  /** `prepare` is not idempotent: preparing twice leaves two entries with the same id. */
  lemma PrepareTwice(rs: seq<Record>, cid: string, taskId: string, creatorId: int, files: seq<Value>, description: string)
    requires ClassroomDb.GetInfo(rs, Str(cid)).Some?
    requires var c := ClassroomDb.GetInfo(rs, Str(cid)).value; "tasks" !in c || c["tasks"].Arr?
    ensures var key := ClassroomDb.ClassroomKey(Str(cid));
      var entry := PreparedEntry(taskId, creatorId, files, description);
      var once := Pushed(rs, key, Field("tasks"), [entry]);
      && once.Success?
      && var twice := Pushed(once.value, key, Field("tasks"), [entry]);
      && twice.Success?
      && var before := ClassroomDb.GetInfo(rs, Str(cid)).value;
      && var c := ClassroomDb.GetInfo(twice.value, Str(cid));
      && c.Some? && "tasks" in c.value
      && c.value["tasks"] == Arr((if "tasks" in before then before["tasks"].items else []) + [entry, entry])
  {
    var entry := PreparedEntry(taskId, creatorId, files, description);
    PushTwiceDuplicates(rs, ClassroomDb.ClassroomKey(Str(cid)), Field("tasks"), entry);
  }
}
