/**
 * infrastructure/message_handler.py, class Handler: one chat's conversation with the bot.
 *
 * The Handler keeps the id of the bot's last message, the ids of messages to delete at the
 * next clean-up, and the user's type; aiogram keeps the chat's FSM state and its data dict.
 * Telegram itself is replaced by an append-only log of what the bot sent, edited, deleted
 * and answered, with fresh ids for the messages it sends. The user database, the classroom
 * database, `get_md5`, `dateutil.parser.parse` and Python's `str()` of non-scalar values
 * are parameters of the Handler.
 */
module MessageHandler {
  import opened Wrappers
  import opened Strings
  import opened Store
  import opened Helper
  import opened Routing
  import UserDb
  import ClassroomDb
  import Tasks

  /** The FSM data dict of a chat: the keys the handlers write, each possibly absent. */
  datatype FsmData = FsmData(
    classroomId: Option<string>,
    teacherId: Option<int>,
    taskId: Option<string>,
    creatorId: Option<int>)

  const NoData: FsmData := FsmData(None, None, None, None)

  /** An inline keyboard button: its label and its callback data. */
  datatype Button = Button(caption: string, data: string)

  /** The messages the bot sends, by meaning rather than wording. */
  datatype Prompt =
    | Greeting(username: string)
    | GuideMenu
    | ModeChoice
    | WelcomeBack(username: string, userType: Value)
    | NotRegistered
    | EmailConsentQuestion
    | EmailRequest
    | FullNameRequest
    | EmailRejected
    | ReadyToGo
    | NameRejected
    | NameExample
    | ClassroomNameRequest
    | ClassroomCreated(name: string)
    | ClassroomIdNote(classroomId: string)
    | GroupIdRequest
    | JoinedGroup(groupName: Value)
    | ManagedGroupsMenu(buttons: seq<Button>)
    | GroupActionsMenu(shownName: string)
    | TaskRequest
    | TaskIdNote(taskId: string)
    | DeadlineRequest
    | DateRejected
    | TaskNotSent

  /** What the bot does in the chat. Edits and deletions name a message id that may be None. */
  datatype ChatAction =
    | Sent(id: int, prompt: Prompt)
    | Edited(target: Option<int>, prompt: Prompt)
    | Deleted(target: Option<int>)
    | Answered(queryId: string)

  /** Why a handler stopped with an exception. */
  datatype Fault =
    | Db(error: DbError)     // a failed lookup (TypeError/KeyError) or a server error
    | Unpack                 // `a, b = data.split(':')` with other than two parts
    | MissingFsmKey(key: string)
    | TaskConstructor        // `Task(...)` called without `creator_id`

  datatype Outcome = Completed | Raised(fault: Fault)

  /** Everything the conversation holds besides the databases. */
  datatype Session = Session(
    state: FsmState,
    data: FsmData,
    lastMsgId: Option<int>,
    cachedMsgs: seq<Option<int>>,
    userType: Option<string>,
    log: seq<ChatAction>,
    nextMsgId: int)

  /** The deletions `clean_chat` performs, one per cached id, in order. */
  function Deletions(ms: seq<Option<int>>): (r: seq<ChatAction>)
    ensures |r| == |ms|
    ensures forall k | 0 <= k < |ms| :: r[k] == Deleted(ms[k])
  {
    if |ms| == 0 then [] else Deletions(ms[..|ms| - 1]) + [Deleted(ms[|ms| - 1])]
  }

  /**
   * What every update keeps: the log only grows, and the chat never returns to having no
   * state, nor enters `REGISTRATION`, which no handler sets.
   */
  predicate Follows(before: Session, after: Session)
  {
    && before.log <= after.log
    && (after.state == NoState ==> before.state == NoState)
    && (after.state == InStatus(Registration) ==> before.state == InStatus(Registration))
  }

  /** A step that appends to the log and keeps the state, or moves to a state other than none or `REGISTRATION`, follows. */
  lemma Extends(before: Session, after: Session, extra: seq<ChatAction>)
    requires after.log == before.log + extra
    requires after.state == before.state || (after.state != NoState && after.state != InStatus(Registration))
    ensures Follows(before, after)
  {
  }

  lemma FollowsTrans(a: Session, b: Session, c: Session)
    requires Follows(a, b) && Follows(b, c)
    ensures Follows(a, c)
  {
  }

  /** Every message the log says was sent has an id below `next`. */
  predicate SentBelow(log: seq<ChatAction>, next: int)
  {
    forall k | 0 <= k < |log| && log[k].Sent? :: log[k].id < next
  }

  // ---------------------------------------------------------------------------
  // Identifiers

  /** `f"{message.chat.id}-{message.text}"`, the text hashed into a classroom id. */
  function ClassroomHashInput(chat: int, name: string): string
  {
    IntToString(chat) + "-" + name
  }

  /** Different teachers, or different names, hash different texts; the same pair always the same id. */
  lemma ClassroomHashInputInjective(a: int, s: string, b: int, t: string)
    ensures ClassroomHashInput(a, s) == ClassroomHashInput(b, t) <==> a == b && s == t
  {
    if ClassroomHashInput(a, s) == ClassroomHashInput(b, t) {
      IntDashPrefixInjective(a, s, b, t);
    }
  }

  function ClassroomIdFor(md5: string -> Digest, chat: int, name: string): string
  {
    GetMd5(md5, ClassroomHashInput(chat, name))
  }

  /** The text of a message: `message.text`, which is None for photos and documents. */
  function TextOf(content: Content): Option<string>
  {
    if content.Text? then Some(content.text) else None
  }

  /** `f"{user_id}-{description}-{message.message_id}"`, with None rendered as "None". */
  function TaskHashInput(chat: int, description: Option<string>, mid: int): string
  {
    IntToString(chat) + "-" + ((if description.Some? then description.value else "None") + "-" + IntToString(mid))
  }

  /** A task's creator is recoverable from the text hashed into its id. */
  lemma TaskHashInputCreator(a: int, d: Option<string>, m: int, b: int, e: Option<string>, n: int)
    requires TaskHashInput(a, d, m) == TaskHashInput(b, e, n)
    ensures a == b
  {
    IntDashPrefixInjective(a, (if d.Some? then d.value else "None") + "-" + IntToString(m),
                           b, (if e.Some? then e.value else "None") + "-" + IntToString(n));
  }

  function TaskIdFor(md5: string -> Digest, chat: int, content: Content, mid: int): string
  {
    GetMd5(md5, TaskHashInput(chat, TextOf(content), mid))
  }

  /**
   * The draft's description: the message text when there is a non-empty one, else the default.
   * A stored task always has a description, and one other than the default is the text the
   * teacher sent.
   */
  function DraftDescription(content: Content): (d: string)
    ensures d != ""
    ensures d != Tasks.DefaultDescription ==> TextOf(content) == Some(d)
    ensures content.Text? && content.text != "" ==> d == content.text
  {
    if content.Text? && content.text != "" then content.text else Tasks.DefaultDescription
  }

  /**
   * The draft's files: the downloaded photo or document, if any, with the bytes the message
   * carried, stored under the last component of its path.
   */
  function DraftFiles(content: Content): (fs: seq<Value>)
    ensures |fs| == if content.Photo? || content.Document? then 1 else 0
    ensures forall f | f in fs ::
      && (content.Photo? || content.Document?)
      && f.Doc? && f.fields.Keys == {"filename", "file"} && f.fields["file"] == Binary(content.bytes)
      && f.fields["filename"] == Str(Tasks.FileName(content.path))
  {
    match content
    case Photo(path, bytes) => [Tasks.FileEntry(path, bytes)]
    case Document(path, bytes) => [Tasks.FileEntry(path, bytes)]
    case _ => []
  }

  // ---------------------------------------------------------------------------
  // The managed-groups keyboard

  /** Python's `str()` of a value, as an f-string renders it; `repr` stands for the non-scalar cases. */
  function Show(v: Value, repr: Value -> string): string
  {
    match v
    case Null => "None"
    case Bool(b) => if b then "True" else "False"
    case Int(i) => IntToString(i)
    case Str(s) => s
    case _ => repr(v)
  }

  /** `{group["name"]: f"{group['name']}:{group['classroom_id']}"}` for one looked-up group. */
  function ButtonFor(info: Option<Record>, repr: Value -> string): Result<Button, DbError>
  {
    match info
    case None => Failure(NoRecord)
    case Some(g) =>
      if "name" !in g then Failure(MissingField("name"))
      else if "classroom_id" !in g then Failure(MissingField("classroom_id"))
      else Success(Button(Show(g["name"], repr), Show(g["name"], repr) + ":" + Show(g["classroom_id"], repr)))
  }

  /** The keyboard rows, one per group in order, or the first group's error. */
  function GroupButtons(infos: seq<Option<Record>>, repr: Value -> string): (r: Result<seq<Button>, DbError>)
    ensures r.Success? <==> forall k | 0 <= k < |infos| :: ButtonFor(infos[k], repr).Success?
    ensures r.Success? ==> |r.value| == |infos|
    ensures r.Success? ==> forall k | 0 <= k < |infos| :: ButtonFor(infos[k], repr) == Success(r.value[k])
  {
    if |infos| == 0 then Success([])
    else
      var front := infos[..|infos| - 1];
      assert forall k | 0 <= k < |front| :: front[k] == infos[k];
      match GroupButtons(front, repr)
      case Failure(e) => Failure(e)
      case Success(bs) =>
        match ButtonFor(infos[|infos| - 1], repr)
        case Failure(e) => Failure(e)
        case Success(b) => Success(bs + [b])
  }

  /** The error the keyboard reports is that of the first group that fails. */
  lemma {:induction false} GroupButtonsFirstFailure(infos: seq<Option<Record>>, repr: Value -> string, i: nat)
    requires i < |infos| && ButtonFor(infos[i], repr).Failure?
    requires forall k | 0 <= k < i :: ButtonFor(infos[k], repr).Success?
    ensures GroupButtons(infos, repr) == Failure(ButtonFor(infos[i], repr).error)
    decreases |infos|
  {
    var front := infos[..|infos| - 1];
    if i < |infos| - 1 {
      assert front[i] == infos[i];
      assert forall k | 0 <= k < i :: front[k] == infos[k];
      GroupButtonsFirstFailure(front, repr, i);
    } else {
      assert forall k | 0 <= k < |front| :: front[k] == infos[k];
    }
  }

  /** One more group: its button extends the keyboard, or its error is the keyboard's. */
  lemma GroupButtonsStep(infos: seq<Option<Record>>, repr: Value -> string, j: nat, bs: seq<Button>)
    requires j < |infos| && GroupButtons(infos[..j], repr) == Success(bs)
    ensures ButtonFor(infos[j], repr).Success? ==>
      GroupButtons(infos[..j + 1], repr) == Success(bs + [ButtonFor(infos[j], repr).value])
    ensures ButtonFor(infos[j], repr).Failure? ==>
      GroupButtons(infos, repr) == Failure(ButtonFor(infos[j], repr).error)
  {
    assert infos[..j + 1][..j] == infos[..j];
    if ButtonFor(infos[j], repr).Failure? {
      forall k | 0 <= k < j ensures ButtonFor(infos[k], repr).Success? {
        assert infos[..j][k] == infos[k];
      }
      GroupButtonsFirstFailure(infos, repr, j);
    }
  }

  /** The ids in the user's `managed_classrooms`, or the error Python raises reading them. */
  function ManagedIds(users: seq<Record>, chat: int): Result<seq<Value>, DbError>
  {
    match FindOne(users, UserDb.UserKey(chat))
    case None => Failure(NoRecord)
    case Some(user) =>
      if "managed_classrooms" !in user then Failure(MissingField("managed_classrooms"))
      else if !user["managed_classrooms"].Arr? then Failure(NotAnArray(Field("managed_classrooms")))
      else Success(user["managed_classrooms"].items)
  }

  /** `[class_db.get_info(group_id) for group_id in ids]` */
  function ManagedInfos(classrooms: seq<Record>, ids: seq<Value>): seq<Option<Record>>
  {
    seq(|ids|, k requires 0 <= k < |ids| => ClassroomDb.GetInfo(classrooms, ids[k]))
  }

  /** The keyboard `teacher_managed_groups` shows, or the error it raises. */
  function ManagedKeyboard(users: seq<Record>, classrooms: seq<Record>, chat: int, repr: Value -> string)
    : Result<seq<Button>, DbError>
  {
    match ManagedIds(users, chat)
    case Failure(e) => Failure(e)
    case Success(ids) => GroupButtons(ManagedInfos(classrooms, ids), repr)
  }

  /**
   * Round trip of a group button: splitting `f"{name}:{classroom_id}"` on ':' gives exactly
   * two parts precisely when the name has no ':', and then they are the name and the id.
   */
  lemma ButtonDataSplit(name: string, cid: string)
    requires ':' !in cid
    ensures |Split(name + ":" + cid, ':')| == 2 <==> ':' !in name
    ensures ':' !in name ==> Split(name + ":" + cid, ':') == [name, cid]
  {
    SplitAppend(name, ':', cid);
    SplitSingle(name, ':');
  }

  /**
   * A classroom created by `classroom_name_handler` and listed in the keyboard yields a
   * button whose data `teacher_view_group_actions` splits back into the classroom's id,
   * unless the classroom's name holds a ':'.
   */
  lemma GroupButtonRoundTrip(md5: string -> Digest, chat: int, name: string, g: Record, repr: Value -> string)
    requires "classroom_id" in g && "name" in g
    requires g["classroom_id"] == Str(ClassroomIdFor(md5, chat, name)) && g["name"] == Str(name)
    ensures ButtonFor(Some(g), repr).Success?
    ensures var parts := Split(ButtonFor(Some(g), repr).value.data, ':');
      && (|parts| == 2 <==> ':' !in name)
      && (':' !in name ==> parts == [name, ClassroomIdFor(md5, chat, name)])
  {
    var cid := ClassroomIdFor(md5, chat, name);
    assert ButtonFor(Some(g), repr) == Success(Button(name, name + ":" + cid));
    ButtonDataSplit(name, cid);
  }

  // ---------------------------------------------------------------------------

  class Handler {
    const chat: int
    const username: string
    const botName: string
    const db: Database
    const classDb: Database
    const md5: string -> Digest
    const parseDate: string -> Option<int>
    const repr: Value -> string

    var state: FsmState
    var data: FsmData
    var lastMsgId: Option<int>
    var cachedMsgs: seq<Option<int>>
    var userType: Option<string>
    var log: seq<ChatAction>
    var nextMsgId: int

    /** The two databases are distinct collections, and every id the bot hands out is fresh. */
    predicate Valid()
      reads this
    {
      db != classDb && SentBelow(log, nextMsgId)
    }

    function Current(): Session
      reads this
    {
      Session(state, data, lastMsgId, cachedMsgs, userType, log, nextMsgId)
    }

    /** `Handler(bot, db, class_db, dispatcher)` for a chat that has no state yet. */
    constructor (chat: int, username: string, botName: string, db: Database, classDb: Database,
                 md5: string -> Digest, parseDate: string -> Option<int>, repr: Value -> string, firstMsgId: int)
      requires db != classDb
      ensures Valid()
      ensures this.chat == chat && this.username == username && this.botName == botName
      ensures this.db == db && this.classDb == classDb
      ensures this.md5 == md5 && this.parseDate == parseDate && this.repr == repr
      ensures Current() == Session(NoState, NoData, None, [], None, [], firstMsgId)
    {
      this.chat := chat;
      this.username := username;
      this.botName := botName;
      this.db := db;
      this.classDb := classDb;
      this.md5 := md5;
      this.parseDate := parseDate;
      this.repr := repr;
      state := NoState;
      data := NoData;
      lastMsgId := None;
      cachedMsgs := [];
      userType := None;
      log := [];
      nextMsgId := firstMsgId;
    }

    /** `bot.send_message`: the message gets the next id, one no message sent before it has. */
    method Send(prompt: Prompt) returns (id: int)
      requires Valid()
      modifies this
      ensures Valid()
      ensures id == old(nextMsgId)
      ensures forall k | 0 <= k < |old(log)| && old(log)[k].Sent? :: old(log)[k].id != id
      ensures Current() == old(Current()).(log := old(log) + [Sent(id, prompt)], nextMsgId := id + 1)
    {
      id := nextMsgId;
      log := log + [Sent(id, prompt)];
      nextMsgId := nextMsgId + 1;
    }

    /** `clean_chat`: delete every cached message, in order, then forget them. */
    method CleanChat()
      requires Valid()
      modifies this
      ensures Valid()
      ensures Follows(old(Current()), Current())
      ensures Current() == old(Current()).(cachedMsgs := [], log := old(log) + Deletions(old(cachedMsgs)))
    {
      var i := 0;
      while i < |cachedMsgs|
        invariant 0 <= i <= |cachedMsgs|
        invariant Valid()
        invariant Current() == old(Current()).(log := old(log) + Deletions(cachedMsgs[..i]))
      {
        assert cachedMsgs[..i + 1][..i] == cachedMsgs[..i];
        log := log + [Deleted(cachedMsgs[i])];
        i := i + 1;
      }
      assert cachedMsgs[..i] == cachedMsgs;
      cachedMsgs := [];
      Extends(old(Current()), Current(), Deletions(old(cachedMsgs)));
    }

    /** `start`: greet the user with the register / sign-in keyboard. */
    method Start()
      requires Valid()
      modifies this
      ensures Valid()
      ensures var n := old(nextMsgId);
        Current() == old(Current()).(lastMsgId := Some(n), log := old(log) + [Sent(n, Greeting(username))], nextMsgId := n + 1)
    {
      var id := Send(Greeting(username));
      lastMsgId := Some(id);
    }

    /** `chat_help`: the guide keyboard. */
    method ChatHelp()
      requires Valid()
      modifies this
      ensures Valid()
      ensures var n := old(nextMsgId);
        Current() == old(Current()).(log := old(log) + [Sent(n, GuideMenu)], nextMsgId := n + 1)
    {
      var _ := Send(GuideMenu);
    }

    /**
     * `email_handler`: a valid address is stored, the chat is cleaned and the full name asked
     * for; an invalid one is answered with an apology and nothing else changes.
     */
    method EmailHandler(mid: int, text: string)
      requires Valid()
      modifies this, db
      ensures Valid()
      ensures var read := old(Current()).(cachedMsgs := old(cachedMsgs) + [Some(mid)]);
        var n := read.nextMsgId;
        if IsEmail(text) then
          && db.records == FieldsSet(old(db.records), UserDb.UserKey(chat), map["email" := Str(text)])
          && Current() == read.(
               state := InStatus(WaitFullName),
               cachedMsgs := [Some(n)],
               log := read.log + Deletions(read.cachedMsgs) + [Sent(n, FullNameRequest)],
               nextMsgId := n + 1)
        else
          && db.records == old(db.records)
          && Current() == read.(
               cachedMsgs := read.cachedMsgs + [Some(n)],
               log := read.log + [Sent(n, EmailRejected)],
               nextMsgId := n + 1)
    {
      cachedMsgs := cachedMsgs + [Some(mid)];
      if IsEmail(text) {
        AcceptEmail(text);
      } else {
        var id := Send(EmailRejected);
        cachedMsgs := cachedMsgs + [Some(id)];
      }
    }

    /** The accepting branch of `email_handler`: store, clean, ask for the full name. */
    method AcceptEmail(text: string)
      requires Valid()
      modifies this, db
      ensures Valid()
      ensures db.records == FieldsSet(old(db.records), UserDb.UserKey(chat), map["email" := Str(text)])
      ensures var n := old(nextMsgId);
        Current() == old(Current()).(
          state := InStatus(WaitFullName),
          cachedMsgs := [Some(n)],
          log := old(log) + Deletions(old(cachedMsgs)) + [Sent(n, FullNameRequest)],
          nextMsgId := n + 1)
    {
      UserDb.Update(db, chat, map["email" := Str(text)]);
      CleanChat();
      var id := Send(FullNameRequest);
      cachedMsgs := cachedMsgs + [Some(id)];
      state := InStatus(WaitFullName);
    }

    /**
     * `name_handler`: a valid name is stored and the chat cleaned; a student then reaches the
     * main menu and anyone else is asked for a classroom name. An invalid name is answered
     * with an apology and an example, and nothing else changes.
     */
    method NameHandler(mid: int, text: string)
      requires Valid()
      modifies this, db
      ensures Valid()
      ensures var read := old(Current()).(cachedMsgs := old(cachedMsgs) + [Some(mid)]);
        var n := read.nextMsgId;
        var student := old(userType) == Some("student");
        if IsFullName(text) then
          && db.records == FieldsSet(old(db.records), UserDb.UserKey(chat), map["full_name" := Str(text)])
          && Current() == read.(
               state := InStatus(if student then MainMenu else WaitClassroomName),
               cachedMsgs := [Some(n)],
               log := read.log + Deletions(read.cachedMsgs) + [Sent(n, if student then ReadyToGo else ClassroomNameRequest)],
               nextMsgId := n + 1)
        else
          && db.records == old(db.records)
          && Current() == read.(
               cachedMsgs := read.cachedMsgs + [Some(n), Some(n + 1)],
               log := read.log + [Sent(n, NameRejected), Sent(n + 1, NameExample)],
               nextMsgId := n + 2)
    {
      if IsFullName(text) {
        StoreName(mid, text);
        CleanChat();
        NextAfterName();
      } else {
        cachedMsgs := cachedMsgs + [Some(mid)];
        var id := Send(NameRejected);
        cachedMsgs := cachedMsgs + [Some(id)];
        id := Send(NameExample);
        cachedMsgs := cachedMsgs + [Some(id)];
      }
    }

    /** The start of `name_handler` for a valid name: the message is cached and the name stored. */
    method StoreName(mid: int, text: string)
      requires Valid()
      modifies this, db
      ensures Valid()
      ensures db.records == FieldsSet(old(db.records), UserDb.UserKey(chat), map["full_name" := Str(text)])
      ensures Current() == old(Current()).(cachedMsgs := old(cachedMsgs) + [Some(mid)])
    {
      cachedMsgs := cachedMsgs + [Some(mid)];
      UserDb.Update(db, chat, map["full_name" := Str(text)]);
    }

    /**
     * The end of a valid `name_handler` on a clean chat: a student reaches the main menu, a
     * teacher is asked for a classroom name.
     */
    method NextAfterName()
      requires Valid() && cachedMsgs == []
      modifies this
      ensures Valid()
      ensures var n := old(nextMsgId);
        var student := userType == Some("student");
        Current() == old(Current()).(
          state := InStatus(if student then MainMenu else WaitClassroomName),
          cachedMsgs := [Some(n)],
          log := old(log) + [Sent(n, if student then ReadyToGo else ClassroomNameRequest)],
          nextMsgId := n + 1)
    {
      if userType == Some("student") {
        CleanChat();
        var id := Send(ReadyToGo);
        cachedMsgs := cachedMsgs + [Some(id)];
        state := InStatus(MainMenu);
      } else {
        AskClassroomName(None);
      }
    }

    /** `reg_begin_registration`: a raw user record, then the mode question in place of the greeting. */
    method RegBeginRegistration(query: string)
      requires Valid()
      modifies this, db
      ensures Valid()
      ensures Follows(old(Current()), Current())
      ensures db.records == Uploaded(old(db.records), UserDb.UserKey(chat), UserDb.RawUser(chat, map[]))
      ensures Current() == old(Current()).(log := old(log) + [Edited(old(lastMsgId), ModeChoice), Answered(query)])
    {
      UserDb.AddRaw(db, chat, map[]);
      log := log + [Edited(lastMsgId, ModeChoice), Answered(query)];
    }

    /**
     * `reg_sign_in`: the greeting is deleted with the rest of the cache. A known user with a
     * type reaches the main menu; an unknown one gets the register keyboard again; a known
     * user without a type makes `get_type` raise.
     */
    method RegSignIn(query: string) returns (outcome: Outcome)
      requires Valid()
      modifies this
      ensures Valid()
      ensures Follows(old(Current()), Current())
      ensures var cleaned := old(Current()).(cachedMsgs := [],
          log := old(log) + Deletions(old(cachedMsgs) + [old(lastMsgId)]));
        var n := cleaned.nextMsgId;
        if !UserDb.Exists(db.records, chat) then
          && outcome == Completed
          && Current() == cleaned.(lastMsgId := Some(n),
               log := cleaned.log + [Sent(n, NotRegistered), Answered(query)], nextMsgId := n + 1)
        else match UserDb.GetType(db.records, chat)
          case Failure(e) =>
            && outcome == Raised(Db(e))
            && Current() == cleaned
          case Success(kind) =>
            && outcome == Completed
            && Current() == cleaned.(state := InStatus(MainMenu), cachedMsgs := [Some(n)],
                 log := cleaned.log + [Sent(n, WelcomeBack(username, kind)), Answered(query)], nextMsgId := n + 1)
    {
      cachedMsgs := cachedMsgs + [lastMsgId];
      CleanChat();
      assert Current() == old(Current()).(cachedMsgs := [],
        log := old(log) + Deletions(old(cachedMsgs) + [old(lastMsgId)]));
      outcome := GreetKnownUser(query);
    }

    /** The part of `reg_sign_in` after the clean-up: the lookup, the reply and the answer. */
    method GreetKnownUser(query: string) returns (outcome: Outcome)
      requires Valid()
      modifies this
      ensures Valid()
      ensures var n := old(nextMsgId);
        if !UserDb.Exists(db.records, chat) then
          && outcome == Completed
          && Current() == old(Current()).(lastMsgId := Some(n),
               log := old(log) + [Sent(n, NotRegistered), Answered(query)], nextMsgId := n + 1)
        else match UserDb.GetType(db.records, chat)
          case Failure(e) =>
            && outcome == Raised(Db(e))
            && Current() == old(Current())
          case Success(kind) =>
            && outcome == Completed
            && Current() == old(Current()).(state := InStatus(MainMenu), cachedMsgs := old(cachedMsgs) + [Some(n)],
                 log := old(log) + [Sent(n, WelcomeBack(username, kind)), Answered(query)], nextMsgId := n + 1)
    {
      if UserDb.Exists(db.records, chat) {
        match UserDb.GetType(db.records, chat)
        case Failure(e) =>
          return Raised(Db(e));
        case Success(kind) =>
          var id := Send(WelcomeBack(username, kind));
          cachedMsgs := cachedMsgs + [Some(id)];
          state := InStatus(MainMenu);
      } else {
        var id := Send(NotRegistered);
        lastMsgId := Some(id);
      }
      log := log + [Answered(query)];
      outcome := Completed;
    }

    /** `reg_ask_email_permission`: the chosen type is stored and remembered, then the e-mail question. */
    method RegAskEmailPermission(query: string, choice: string)
      requires Valid()
      modifies this, db
      ensures Valid()
      ensures Follows(old(Current()), Current())
      ensures db.records == FieldsSet(old(db.records), UserDb.UserKey(chat), map["type" := Str(choice)])
      ensures Current() == old(Current()).(userType := Some(choice),
        log := old(log) + [Edited(old(lastMsgId), EmailConsentQuestion), Answered(query)])
    {
      UserDb.Update(db, chat, map["type" := Str(choice)]);
      userType := Some(choice);
      log := log + [Edited(lastMsgId, EmailConsentQuestion), Answered(query)];
    }

    /** `reg_ask_email`: the question and the request are cached for deletion; the chat waits for an e-mail. */
    method RegAskEmail(query: string)
      requires Valid()
      modifies this
      ensures Valid()
      ensures Follows(old(Current()), Current())
      ensures var n := old(nextMsgId);
        Current() == old(Current()).(state := InStatus(WaitEmail),
          cachedMsgs := old(cachedMsgs) + [old(lastMsgId), Some(n)],
          log := old(log) + [Sent(n, EmailRequest)], nextMsgId := n + 1)
    {
      cachedMsgs := cachedMsgs + [lastMsgId];
      var id := Send(EmailRequest);
      cachedMsgs := cachedMsgs + [Some(id)];
      state := InStatus(WaitEmail);
    }

    /**
     * `classroom_name_handler`: the classroom `md5("{chat}-{name}")` is created with this
     * teacher and name, its id is appended to the user's `managed_classrooms`, and the chat
     * returns to the main menu. If the append raises, the classroom exists but nothing else follows.
     */
    method ClassroomNameHandler(mid: int, text: string) returns (outcome: Outcome)
      requires Valid()
      modifies this, db, classDb
      ensures Valid()
      ensures var cid := ClassroomIdFor(md5, chat, text);
        classDb.records == Uploaded(old(classDb.records), ClassroomDb.ClassroomKey(Str(cid)),
                                    ClassroomDb.RawClassroom(cid, chat, map["name" := Str(text)]))
      ensures var cid := ClassroomIdFor(md5, chat, text);
        var read := old(Current()).(cachedMsgs := old(cachedMsgs) + [Some(mid)]);
        var n := read.nextMsgId;
        var pushed := Pushed(old(db.records), UserDb.UserKey(chat), Field("managed_classrooms"), [Str(cid)]);
        if pushed.Failure? then
          && outcome == Raised(Db(pushed.error))
          && db.records == old(db.records)
          && Current() == read
        else
          && outcome == Completed
          && db.records == pushed.value
          && Current() == read.(state := InStatus(MainMenu),
               cachedMsgs := read.cachedMsgs + [Some(n), Some(n + 1)],
               log := read.log + [Sent(n, ClassroomCreated(text)), Sent(n + 1, ClassroomIdNote(cid))],
               nextMsgId := n + 2)
    {
      var cid := ClassroomIdFor(md5, chat, text);
      var err := CreateClassroom(mid, cid, text);
      outcome := AnnounceClassroom(err, text, cid);
    }

    /**
     * The first part of `classroom_name_handler`: the message is cached, then the two writes,
     * the classroom with its name and its id in the teacher's record.
     */
    method CreateClassroom(mid: int, cid: string, name: string) returns (err: Option<DbError>)
      requires Valid()
      modifies this, db, classDb
      ensures Valid()
      ensures Current() == old(Current()).(cachedMsgs := old(cachedMsgs) + [Some(mid)])
      ensures classDb.records == Uploaded(old(classDb.records), ClassroomDb.ClassroomKey(Str(cid)),
                                         ClassroomDb.RawClassroom(cid, chat, map["name" := Str(name)]))
      ensures var pushed := Pushed(old(db.records), UserDb.UserKey(chat), Field("managed_classrooms"), [Str(cid)]);
        && (pushed.Failure? ==> err == Some(pushed.error) && db.records == old(db.records))
        && (pushed.Success? ==> err.None? && db.records == pushed.value)
    {
      cachedMsgs := cachedMsgs + [Some(mid)];
      ClassroomDb.AddRaw(classDb, cid, chat, map["name" := Str(name)]);
      var r := db.ArrayAppend(UserDb.UserKey(chat), Field("managed_classrooms"), [Str(cid)]);
      err := if r.Failure? then Some(r.error) else None;
    }

    /**
     * The rest of `classroom_name_handler`: a failed write is raised; otherwise two notes
     * follow, and the main menu.
     */
    method AnnounceClassroom(err: Option<DbError>, name: string, cid: string) returns (outcome: Outcome)
      requires Valid()
      modifies this
      ensures Valid()
      ensures err.Some? ==> outcome == Raised(Db(err.value)) && Current() == old(Current())
      ensures var n := old(nextMsgId);
        err.None? ==>
        && outcome == Completed
        && Current() == old(Current()).(state := InStatus(MainMenu),
             cachedMsgs := old(cachedMsgs) + [Some(n), Some(n + 1)],
             log := old(log) + [Sent(n, ClassroomCreated(name)), Sent(n + 1, ClassroomIdNote(cid))],
             nextMsgId := n + 2)
    {
      if err.Some? {
        return Raised(Db(err.value));
      }
      outcome := Completed;
      var id := Send(ClassroomCreated(name));
      cachedMsgs := cachedMsgs + [Some(id)];
      id := Send(ClassroomIdNote(cid));
      cachedMsgs := cachedMsgs + [Some(id)];
      state := InStatus(MainMenu);
    }

    /** `ask_classroom_name`: the request is cached and the chat waits for a name; a callback is answered. */
    method AskClassroomName(query: Option<string>)
      requires Valid()
      modifies this
      ensures Valid()
      ensures Follows(old(Current()), Current())
      ensures var n := old(nextMsgId);
        Current() == old(Current()).(state := InStatus(WaitClassroomName),
          cachedMsgs := old(cachedMsgs) + [Some(n)],
          log := old(log) + [Sent(n, ClassroomNameRequest)] + (if query.Some? then [Answered(query.value)] else []),
          nextMsgId := n + 1)
    {
      var id := Send(ClassroomNameRequest);
      cachedMsgs := cachedMsgs + [Some(id)];
      state := InStatus(WaitClassroomName);
      if query.Some? {
        log := log + [Answered(query.value)];
      }
    }

    /** `student_add_group`: the chat is cleaned and waits for a group id. */
    method StudentAddGroupHandler()
      requires Valid()
      modifies this
      ensures Valid()
      ensures var n := old(nextMsgId);
        Current() == old(Current()).(state := InStatus(StudentAddGroup), cachedMsgs := [Some(n)],
          log := old(log) + Deletions(old(cachedMsgs)) + [Sent(n, GroupIdRequest)], nextMsgId := n + 1)
    {
      CleanChat();
      var id := Send(GroupIdRequest);
      cachedMsgs := cachedMsgs + [Some(id)];
      state := InStatus(StudentAddGroup);
    }

    /**
     * `classroom_id_handler`: the student is appended to the group named by the text. When
     * no group has that id nothing else happens and the chat keeps waiting; otherwise the
     * chat is cleaned and, if the group has a name, the student reaches the main menu.
     */
    method ClassroomIdHandler(text: string) returns (outcome: Outcome)
      requires Valid()
      modifies this, classDb
      ensures Valid()
      ensures var pushed := Pushed(old(classDb.records), ClassroomDb.ClassroomKey(Str(text)), Field("students"),
                                   [ClassroomDb.IdEntry(chat)]);
        if pushed.Failure? then
          && outcome == Raised(Db(pushed.error))
          && classDb.records == old(classDb.records)
          && Current() == old(Current())
        else if ClassroomDb.GetInfo(old(classDb.records), Str(text)).None? then
          && outcome == Completed
          && classDb.records == old(classDb.records)
          && Current() == old(Current())
        else
          && classDb.records == pushed.value
          && ClassroomDb.GetInfo(pushed.value, Str(text)).Some?
          && Joined(old(Current()), ClassroomDb.GetInfo(pushed.value, Str(text)).value, outcome, Current())
    {
      var key := ClassroomDb.ClassroomKey(Str(text));
      ghost var pushed := Pushed(classDb.records, key, Field("students"), [ClassroomDb.IdEntry(chat)]);
      ghost var found := ClassroomDb.GetInfo(classDb.records, Str(text)).Some?;
      if pushed.Success? && found {
        PushKeepsFirstMatch(classDb.records, key, Field("students"), [ClassroomDb.IdEntry(chat)]);
      }
      var r := ClassroomDb.AddStudent(classDb, chat, Str(text));
      match r
      case Failure(e) =>
        return Raised(Db(e));
      case Success(added) =>
        if !added {
          return Completed;
        }
        var group := ClassroomDb.GetInfo(classDb.records, Str(text));
        if group.Some? {
          outcome := JoinGroup(group.value);
        }
    }

    /** What `classroom_id_handler` does after a successful join, from session `before`. */
    ghost predicate Joined(before: Session, group: Record, outcome: Outcome, after: Session)
    {
      var n := before.nextMsgId;
      var cleaned := before.(cachedMsgs := [], log := before.log + Deletions(before.cachedMsgs));
      if "name" !in group then
        outcome == Raised(Db(MissingField("name"))) && after == cleaned
      else
        && outcome == Completed
        && after == cleaned.(state := InStatus(MainMenu), cachedMsgs := [Some(n)],
             log := cleaned.log + [Sent(n, JoinedGroup(group["name"]))], nextMsgId := n + 1)
    }

    /** The chat is cleaned; the group's name is read and announced, and the main menu shown. */
    method JoinGroup(group: Record) returns (outcome: Outcome)
      requires Valid()
      modifies this
      ensures Valid()
      ensures Joined(old(Current()), group, outcome, Current())
    {
      CleanChat();
      if "name" !in group {
        return Raised(Db(MissingField("name")));
      }
      var id := Send(JoinedGroup(group["name"]));
      cachedMsgs := cachedMsgs + [Some(id)];
      state := InStatus(MainMenu);
      outcome := Completed;
    }

    /** `teacher_create_group`: the button message is deleted with the cache and a classroom name asked for. */
    method TeacherCreateGroup(mid: int)
      requires Valid()
      modifies this
      ensures Valid()
      ensures Follows(old(Current()), Current())
      ensures var n := old(nextMsgId);
        Current() == old(Current()).(state := InStatus(WaitClassroomName), cachedMsgs := [Some(n)],
          log := old(log) + Deletions(old(cachedMsgs) + [Some(mid)]) + [Sent(n, ClassroomNameRequest)],
          nextMsgId := n + 1)
    {
      cachedMsgs := cachedMsgs + [Some(mid)];
      CleanChat();
      AskClassroomName(None);
    }

    /**
     * `teacher_managed_groups`: after cleaning the chat, one button per managed classroom,
     * in the order of `managed_classrooms`; the chat then waits for a choice. A missing
     * user, list, classroom or name raises before anything is sent.
     */
    method TeacherManagedGroups(mid: int) returns (outcome: Outcome)
      requires Valid()
      modifies this
      ensures Valid()
      ensures Follows(old(Current()), Current())
      ensures var cleaned := old(Current()).(cachedMsgs := [], log := old(log) + Deletions(old(cachedMsgs) + [Some(mid)]));
        var n := cleaned.nextMsgId;
        match ManagedKeyboard(db.records, classDb.records, chat, repr)
        case Failure(e) =>
          && outcome == Raised(Db(e))
          && Current() == cleaned
        case Success(buttons) =>
          && outcome == Completed
          && Current() == cleaned.(state := InStatus(TeacherViewGroups), lastMsgId := Some(n),
               log := cleaned.log + [Sent(n, ManagedGroupsMenu(buttons))], nextMsgId := n + 1)
    {
      cachedMsgs := cachedMsgs + [Some(mid)];
      CleanChat();
      assert Current() == old(Current()).(cachedMsgs := [], log := old(log) + Deletions(old(cachedMsgs) + [Some(mid)]));
      ghost var cleaned := Current();
      Extends(old(Current()), cleaned, Deletions(old(cachedMsgs) + [Some(mid)]));
      var keyboard := ReadKeyboard();
      outcome := ShowGroups(keyboard);
      FollowsTrans(old(Current()), cleaned, Current());
    }

    /** The rest of `teacher_managed_groups`: the keyboard's failure is raised, or the menu is sent. */
    method ShowGroups(keyboard: Result<seq<Button>, DbError>) returns (outcome: Outcome)
      requires Valid()
      modifies this
      ensures Valid()
      ensures Follows(old(Current()), Current())
      ensures keyboard.Failure? ==> outcome == Raised(Db(keyboard.error)) && Current() == old(Current())
      ensures var n := old(nextMsgId);
        keyboard.Success? ==>
        && outcome == Completed
        && Current() == old(Current()).(state := InStatus(TeacherViewGroups), lastMsgId := Some(n),
             log := old(log) + [Sent(n, ManagedGroupsMenu(keyboard.value))], nextMsgId := n + 1)
    {
      if keyboard.Failure? {
        return Raised(Db(keyboard.error));
      }
      var id := Send(ManagedGroupsMenu(keyboard.value));
      lastMsgId := Some(id);
      state := InStatus(TeacherViewGroups);
      Extends(old(Current()), Current(), [Sent(id, ManagedGroupsMenu(keyboard.value))]);
      outcome := Completed;
    }

    /** The user's `managed_classrooms`, each looked up and turned into a button. */
    method ReadKeyboard() returns (r: Result<seq<Button>, DbError>)
      ensures r == ManagedKeyboard(db.records, classDb.records, chat, repr)
    {
      match ManagedIds(db.records, chat)
      case Failure(e) =>
        return Failure(e);
      case Success(ids) =>
        var infos := LookUpGroups(ids);
        r := CollectButtons(infos);
    }

    /** `class_db.get_info` for each id, in order. */
    method LookUpGroups(ids: seq<Value>) returns (infos: seq<Option<Record>>)
      ensures infos == ManagedInfos(classDb.records, ids)
    {
      infos := [];
      var i := 0;
      while i < |ids|
        invariant 0 <= i <= |ids|
        invariant |infos| == i
        invariant forall k | 0 <= k < i :: infos[k] == ClassroomDb.GetInfo(classDb.records, ids[k])
      {
        infos := infos + [ClassroomDb.GetInfo(classDb.records, ids[i])];
        i := i + 1;
      }
    }

    /** The keyboard loop of `teacher_managed_groups`: one button per group, stopping at the first failure. */
    method CollectButtons(infos: seq<Option<Record>>) returns (r: Result<seq<Button>, DbError>)
      ensures r == GroupButtons(infos, repr)
    {
      var buttons: seq<Button> := [];
      var j := 0;
      while j < |infos|
        invariant 0 <= j <= |infos|
        invariant GroupButtons(infos[..j], repr) == Success(buttons)
      {
        GroupButtonsStep(infos, repr, j, buttons);
        match ButtonFor(infos[j], repr)
        case Failure(e) =>
          return Failure(e);
        case Success(b) =>
          buttons := buttons + [b];
        j := j + 1;
      }
      assert infos[..j] == infos;
      r := Success(buttons);
    }

    /**
     * `teacher_view_group_actions`: the button's data is split on ':' into the group's name
     * and id; the id and the teacher are stored in the FSM data and the actions shown.
     */
    method TeacherViewGroupActions(query: string, d: string) returns (outcome: Outcome)
      requires Valid()
      modifies this
      ensures Valid()
      ensures Follows(old(Current()), Current())
      ensures var parts := Split(d, ':');
        if |parts| != 2 then
          && outcome == Raised(Unpack)
          && Current() == old(Current())
        else
          && outcome == Completed
          && Current() == old(Current()).(state := InStatus(TeacherGroupsActions),
               data := old(data).(classroomId := Some(parts[1]), teacherId := Some(chat)),
               log := old(log) + [Edited(old(lastMsgId), GroupActionsMenu(parts[0])), Answered(query)])
    {
      var parts := Split(d, ':');
      if |parts| != 2 {
        return Raised(Unpack);
      }
      state := InStatus(TeacherGroupsActions);
      data := data.(classroomId := Some(parts[1]), teacherId := Some(chat));
      log := log + [Edited(lastMsgId, GroupActionsMenu(parts[0])), Answered(query)];
      outcome := Completed;
    }

    /** `begin_create_task`: the chat is cleaned and waits for a task description; the FSM data is kept. */
    method BeginCreateTask()
      requires Valid()
      modifies this
      ensures Valid()
      ensures Follows(old(Current()), Current())
      ensures var n := old(nextMsgId);
        Current() == old(Current()).(state := InStatus(TeacherCreateTask), lastMsgId := Some(n), cachedMsgs := [],
          log := old(log) + Deletions(old(cachedMsgs)) + [Sent(n, TaskRequest)], nextMsgId := n + 1)
    {
      CleanChat();
      state := InStatus(TeacherCreateTask);
      var id := Send(TaskRequest);
      lastMsgId := Some(id);
    }

    /** The draft `handle_task_description` builds from one message, not yet prepared. */
    method DraftTask(taskId: string, cid: string, content: Content) returns (task: Tasks.Task)
      ensures fresh(task)
      ensures task.taskId == taskId && task.creatorId == chat && task.classroomId == cid
      ensures task.classDb == classDb && task.userDb == db
      ensures task.files == DraftFiles(content) && task.description == DraftDescription(content)
    {
      task := new Tasks.Task(taskId, chat, cid, classDb, db);
      if content.Text? && content.text != "" {
        task.AddTextDescription(content.text);
      }
      if content.Photo? || content.Document? {
        task.AddFile(content.path, content.bytes);
      }
    }

    /**
     * `handle_task_description` as written. After the clean-up, the cached message and the note
     * with the new id, reading `data["classroom_id"]` raises when the key is missing; otherwise
     * `Task(...)`, called without its `creator_id` argument, raises a TypeError. Either way no
     * task reaches the classroom and the chat stays in `TEACHER_CREATE_TASK`.
     */
    method HandleTaskDescriptionAsWritten(mid: int, content: Content) returns (outcome: Outcome)
      requires Valid()
      modifies this
      ensures Valid()
      ensures Follows(old(Current()), Current())
      ensures unchanged(classDb)
      ensures outcome == Raised(if old(data).classroomId.None? then MissingFsmKey("classroom_id") else TaskConstructor)
      ensures Current() == old(Current()).(cachedMsgs := [Some(mid)],
        log := old(log) + Deletions(old(cachedMsgs)) + [Sent(old(nextMsgId), TaskIdNote(TaskIdFor(md5, chat, content, mid)))],
        nextMsgId := old(nextMsgId) + 1)
    {
      CleanChat();
      ghost var cleaned := Current();
      cachedMsgs := cachedMsgs + [Some(mid)];
      var taskId := TaskIdFor(md5, chat, content, mid);
      var id := Send(TaskIdNote(taskId));
      assert Current() == old(Current()).(cachedMsgs := [Some(mid)],
        log := old(log) + Deletions(old(cachedMsgs)) + [Sent(old(nextMsgId), TaskIdNote(taskId))],
        nextMsgId := old(nextMsgId) + 1);
      Extends(cleaned, Current(), [Sent(id, TaskIdNote(taskId))]);
      FollowsTrans(old(Current()), cleaned, Current());
      if data.classroomId.None? {
        outcome := Raised(MissingFsmKey("classroom_id"));
      } else {
        outcome := Raised(TaskConstructor);
      }
    }

    /**
     * `handle_task_description`, as its authors intended it: the new id is
     * `md5("{chat}-{text}-{message id}")`; a draft with the message's text (or the default
     * description) and its file is pushed as one entry into the classroom's `tasks`, with
     * this user as creator; the chat then waits for a deadline.
     */
    method HandleTaskDescription(mid: int, content: Content) returns (outcome: Outcome)
      requires Valid()
      modifies this, classDb
      ensures Valid()
      ensures Follows(old(Current()), Current())
      ensures var taskId := TaskIdFor(md5, chat, content, mid);
        var noted := old(Current()).(cachedMsgs := [Some(mid)],
          log := old(log) + Deletions(old(cachedMsgs)) + [Sent(old(nextMsgId), TaskIdNote(taskId))],
          nextMsgId := old(nextMsgId) + 1);
        var n := noted.nextMsgId;
        match noted.data.classroomId
        case None =>
          && outcome == Raised(MissingFsmKey("classroom_id"))
          && classDb.records == old(classDb.records)
          && Current() == noted
        case Some(cid) =>
          var pushed := Pushed(old(classDb.records), ClassroomDb.ClassroomKey(Str(cid)), Field("tasks"),
                               [Tasks.PreparedEntry(taskId, chat, DraftFiles(content), DraftDescription(content))]);
          if pushed.Failure? then
            && outcome == Raised(Db(pushed.error))
            && classDb.records == old(classDb.records)
            && Current() == noted
          else
            && outcome == Completed
            && classDb.records == pushed.value
            && Current() == noted.(state := WaitTaskDeadline,
                 data := noted.data.(taskId := Some(taskId), creatorId := Some(chat)),
                 cachedMsgs := noted.cachedMsgs + [Some(n)],
                 log := noted.log + [Sent(n, DeadlineRequest)],
                 nextMsgId := n + 1)
    {
      CleanChat();
      ghost var cleaned := Current();
      cachedMsgs := cachedMsgs + [Some(mid)];
      var taskId := TaskIdFor(md5, chat, content, mid);
      var id := Send(TaskIdNote(taskId));
      assert Current() == old(Current()).(cachedMsgs := [Some(mid)],
        log := old(log) + Deletions(old(cachedMsgs)) + [Sent(old(nextMsgId), TaskIdNote(taskId))],
        nextMsgId := old(nextMsgId) + 1);
      Extends(cleaned, Current(), [Sent(id, TaskIdNote(taskId))]);
      FollowsTrans(old(Current()), cleaned, Current());
      ghost var noted := Current();
      outcome := SubmitDraft(taskId, content);
      FollowsTrans(old(Current()), noted, Current());
    }

    /** The rest of `handle_task_description` once its id has been announced. */
    method SubmitDraft(taskId: string, content: Content) returns (outcome: Outcome)
      requires Valid()
      modifies this, classDb
      ensures Valid()
      ensures Follows(old(Current()), Current())
      ensures var n := old(nextMsgId);
        match old(data).classroomId
        case None =>
          && outcome == Raised(MissingFsmKey("classroom_id"))
          && classDb.records == old(classDb.records)
          && Current() == old(Current())
        case Some(cid) =>
          var pushed := Pushed(old(classDb.records), ClassroomDb.ClassroomKey(Str(cid)), Field("tasks"),
                               [Tasks.PreparedEntry(taskId, chat, DraftFiles(content), DraftDescription(content))]);
          if pushed.Failure? then
            && outcome == Raised(Db(pushed.error))
            && classDb.records == old(classDb.records)
            && Current() == old(Current())
          else
            && outcome == Completed
            && classDb.records == pushed.value
            && Current() == old(Current()).(state := WaitTaskDeadline,
                 data := old(data).(taskId := Some(taskId), creatorId := Some(chat)),
                 cachedMsgs := old(cachedMsgs) + [Some(n)],
                 log := old(log) + [Sent(n, DeadlineRequest)],
                 nextMsgId := n + 1)
    {
      if data.classroomId.None? {
        return Raised(MissingFsmKey("classroom_id"));
      }
      var err := PrepareDraft(taskId, data.classroomId.value, content);
      if err.Some? {
        return Raised(Db(err.value));
      }
      AwaitDeadline(taskId);
      outcome := Completed;
    }

    /** The draft built from the message, then `prepare()`: one entry pushed into the classroom's `tasks`. */
    method PrepareDraft(taskId: string, cid: string, content: Content) returns (err: Option<DbError>)
      modifies classDb
      ensures var pushed := Pushed(old(classDb.records), ClassroomDb.ClassroomKey(Str(cid)), Field("tasks"),
                                   [Tasks.PreparedEntry(taskId, chat, DraftFiles(content), DraftDescription(content))]);
        && (pushed.Failure? ==> err == Some(pushed.error) && classDb.records == old(classDb.records))
        && (pushed.Success? ==> err.None? && classDb.records == pushed.value)
    {
      var task := DraftTask(taskId, cid, content);
      err := task.Prepare();
    }

    /** The draft is stored: remember its id and creator and ask for the deadline. */
    method AwaitDeadline(taskId: string)
      requires Valid()
      modifies this
      ensures Valid()
      ensures Follows(old(Current()), Current())
      ensures var n := old(nextMsgId);
        Current() == old(Current()).(state := WaitTaskDeadline,
          data := old(data).(taskId := Some(taskId), creatorId := Some(chat)),
          cachedMsgs := old(cachedMsgs) + [Some(n)],
          log := old(log) + [Sent(n, DeadlineRequest)],
          nextMsgId := n + 1)
    {
      state := WaitTaskDeadline;
      data := data.(taskId := Some(taskId), creatorId := Some(chat));
      var id := Send(DeadlineRequest);
      cachedMsgs := cachedMsgs + [Some(id)];
      Extends(old(Current()), Current(), [Sent(id, DeadlineRequest)]);
    }

    /**
     * `task_deadline_handler`, as written: text `parse` rejects is answered with an apology;
     * for a date it accepts, `Task(...)` without `creator_id` raises before anything is sent.
     * The state and the FSM data never change.
     */
    method TaskDeadlineHandler(text: string) returns (outcome: Outcome)
      requires Valid()
      modifies this
      ensures Valid()
      ensures Follows(old(Current()), Current())
      ensures var n := old(nextMsgId);
        if parseDate(text).None? then
          && outcome == Completed
          && Current() == old(Current()).(cachedMsgs := old(cachedMsgs) + [Some(n)],
               log := old(log) + [Sent(n, DateRejected)], nextMsgId := n + 1)
        else
          && outcome == Raised(if old(data).taskId.None? then MissingFsmKey("task_id")
                               else if old(data).classroomId.None? then MissingFsmKey("classroom_id")
                               else TaskConstructor)
          && Current() == old(Current())
    {
      match parseDate(text)
      case None =>
        var id := Send(DateRejected);
        cachedMsgs := cachedMsgs + [Some(id)];
        outcome := Completed;
      case Some(_) =>
        if data.taskId.None? {
          outcome := Raised(MissingFsmKey("task_id"));
        } else if data.classroomId.None? {
          outcome := Raised(MissingFsmKey("classroom_id"));
        } else {
          outcome := Raised(TaskConstructor);
        }
    }

    /**
     * `teacher_submit_task`, as written: after cleaning the chat, "yes" raises in `Task(...)`
     * and anything else is answered with the not-sent notice.
     */
    method TeacherSubmitTask(d: string) returns (outcome: Outcome)
      requires Valid()
      modifies this
      ensures Valid()
      ensures Follows(old(Current()), Current())
      ensures var n := old(nextMsgId);
        var cleaned := old(Current()).(cachedMsgs := [], log := old(log) + Deletions(old(cachedMsgs)));
        if d == CallbackYes then
          && outcome == Raised(if old(data).taskId.None? then MissingFsmKey("task_id")
                               else if old(data).classroomId.None? then MissingFsmKey("classroom_id")
                               else TaskConstructor)
          && Current() == cleaned
        else
          && outcome == Completed
          && Current() == cleaned.(cachedMsgs := [Some(n)], log := cleaned.log + [Sent(n, TaskNotSent)],
               nextMsgId := n + 1)
    {
      CleanChat();
      if d == CallbackYes {
        if data.taskId.None? {
          return Raised(MissingFsmKey("task_id"));
        } else if data.classroomId.None? {
          return Raised(MissingFsmKey("classroom_id"));
        }
        return Raised(TaskConstructor);
      }
      var id := Send(TaskNotSent);
      cachedMsgs := cachedMsgs + [Some(id)];
      outcome := Completed;
    }

    /**
     * One update, dispatched as aiogram does. The log only grows; an update no handler
     * takes changes nothing; the chat never returns to "no state" or enters `REGISTRATION`;
     * and "Create group" leads to `WAIT_CLASSROOM_NAME` from every state in which it reaches
     * its handler.
     */
    method Handle(event: Event) returns (outcome: Outcome)
      requires Valid()
      modifies this, db, classDb
      ensures Valid()
      ensures Follows(old(Current()), Current())
      ensures Dispatch(old(state), event, botName) == Unhandled ==>
        outcome == Completed && Current() == old(Current()) &&
        db.records == old(db.records) && classDb.records == old(classDb.records)
      ensures Dispatch(old(state), event, botName) == CreateGroupButton ==> state == InStatus(WaitClassroomName)
    {
      match event {
        case Message(mid, content) =>
          match content {
            case Text(t) =>
              outcome := HandleText(mid, t);
            case Photo(_, _) =>
              outcome := HandleMedia(mid, content);
            case Document(_, _) =>
              outcome := HandleMedia(mid, content);
            case OtherContent =>
              outcome := Completed;
          }
        case CallbackQuery(q, d) =>
          outcome := HandleCallback(q, d);
      }
    }

    /** A text message: commands and buttons first, then the state's own step, in registration order. */
    method HandleText(mid: int, t: string) returns (outcome: Outcome)
      requires Valid()
      modifies this, db, classDb
      ensures Valid()
      ensures Follows(old(Current()), Current())
      ensures var target := TextTarget(old(state), t, IsCommand(t, "start", botName), IsCommand(t, "help", botName));
        && (target == Unhandled ==>
              outcome == Completed && Current() == old(Current()) &&
              db.records == old(db.records) && classDb.records == old(classDb.records))
        && (target == CreateGroupButton ==> state == InStatus(WaitClassroomName))
    {
      var target := TextTarget(state, t, IsCommand(t, "start", botName), IsCommand(t, "help", botName));
      if target in {StartCommand, HelpCommand, EmailStep, NameStep, ClassroomNameStep} {
        outcome := RunSetupStep(target, mid, t);
      } else {
        outcome := RunMenuStep(target, mid, t);
      }
    }

    /** The commands and the registration steps a text message can reach. */
    method RunSetupStep(target: Target, mid: int, t: string) returns (outcome: Outcome)
      requires Valid()
      requires target in {StartCommand, HelpCommand, EmailStep, NameStep, ClassroomNameStep}
      modifies this, db, classDb
      ensures Valid()
      ensures Follows(old(Current()), Current())
    {
      outcome := Completed;
      match target {
        case StartCommand => Start();
        case HelpCommand => ChatHelp();
        case EmailStep => EmailHandler(mid, t);
        case NameStep => NameHandler(mid, t);
        case ClassroomNameStep => outcome := ClassroomNameHandler(mid, t);
      }
    }

    /** The menu buttons and the group and task steps a text message can reach. */
    method RunMenuStep(target: Target, mid: int, t: string) returns (outcome: Outcome)
      requires Valid()
      modifies this, db, classDb
      ensures Valid()
      ensures Follows(old(Current()), Current())
      ensures target == Unhandled ==>
        outcome == Completed && Current() == old(Current()) &&
        db.records == old(db.records) && classDb.records == old(classDb.records)
      ensures target == CreateGroupButton ==> state == InStatus(WaitClassroomName)
    {
      match target {
        case AddGroupButton | ClassroomIdStep | MyGroupsButton | MyMarksButton | DeadlinesButton =>
          outcome := RunStudentStep(target, t);
        case CreateGroupButton | ManagedGroupsButton | TaskDescriptionStep | TaskDeadlineStep =>
          outcome := RunTeacherStep(target, mid, t);
        case _ =>
          outcome := Completed;
      }
    }

    /** The student's menu buttons and the step that reads a classroom id. */
    method RunStudentStep(target: Target, t: string) returns (outcome: Outcome)
      requires Valid()
      requires target in {AddGroupButton, ClassroomIdStep, MyGroupsButton, MyMarksButton, DeadlinesButton}
      modifies this, db, classDb
      ensures Valid()
      ensures Follows(old(Current()), Current())
    {
      outcome := Completed;
      if target == AddGroupButton {
        StudentAddGroupHandler();
      } else if target == ClassroomIdStep {
        outcome := ClassroomIdHandler(t);
      } else {
        CleanChat();
      }
    }

    /** The teacher's menu buttons and the steps that create a task. */
    method RunTeacherStep(target: Target, mid: int, t: string) returns (outcome: Outcome)
      requires Valid()
      requires target in {CreateGroupButton, ManagedGroupsButton, TaskDescriptionStep, TaskDeadlineStep}
      modifies this, db, classDb
      ensures Valid()
      ensures Follows(old(Current()), Current())
      ensures target == CreateGroupButton ==> state == InStatus(WaitClassroomName)
    {
      outcome := Completed;
      if target == CreateGroupButton {
        TeacherCreateGroup(mid);
      } else if target == ManagedGroupsButton {
        outcome := TeacherManagedGroups(mid);
      } else if target == TaskDescriptionStep {
        outcome := HandleTaskDescription(mid, Text(t));
      } else {
        outcome := TaskDeadlineHandler(t);
      }
    }

    /** A photo or a document: only a task being created takes one. */
    method HandleMedia(mid: int, content: Content) returns (outcome: Outcome)
      requires Valid()
      requires content.Photo? || content.Document?
      modifies this, classDb
      ensures Valid()
      ensures Follows(old(Current()), Current())
      ensures old(state) != InStatus(TeacherCreateTask) ==>
        outcome == Completed && Current() == old(Current()) && classDb.records == old(classDb.records)
    {
      outcome := Completed;
      if state == InStatus(TeacherCreateTask) {
        outcome := HandleTaskDescription(mid, content);
      }
    }

    /** A callback query, matched on its data and the chat's state. */
    method HandleCallback(q: string, d: string) returns (outcome: Outcome)
      requires Valid()
      modifies this, db
      ensures Valid()
      ensures Follows(old(Current()), Current())
      ensures Dispatch(old(state), CallbackQuery(q, d), botName) == Unhandled ==>
        outcome == Completed && Current() == old(Current()) && db.records == old(db.records)
    {
      outcome := Completed;
      match Dispatch(state, CallbackQuery(q, d), botName) {
        case RegisterCallback => RegBeginRegistration(q);
        case SignInCallback => outcome := RegSignIn(q);
        case ModeCallback => RegAskEmailPermission(q, d);
        case EmailConsentCallback => RegAskEmail(q);
        case CreateClassroomCallback => AskClassroomName(Some(q));
        case ViewGroupCallback => outcome := TeacherViewGroupActions(q, d);
        case CreateTaskCallback => BeginCreateTask();
        case SubmitTaskCallback => outcome := TeacherSubmitTask(d);
        case _ =>
      }
    }
  }
}
