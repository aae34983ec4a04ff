/**
 * How aiogram's dispatcher picks the handler for an update in infrastructure/message_handler.py.
 *
 * Handlers are tried in the order they are registered and the first whose filters all pass
 * wins. A handler registered without `state=` has a state filter for "no state", so it only
 * fires while the chat has no FSM state; `UserStatus.all_states` lists the nine declared
 * states and not "no state". A message handler without `content_types=` accepts text only.
 */
module Routing {
  import opened Wrappers
  import opened Strings
  import opened Helper

  // infrastructure/keyboards/callbacks.py
  const CallbackYes: string := "callback_yes"
  const CallbackNo: string := "callback_no"
  const CallbackRegister: string := "callback_register_1"
  const CallbackSignIn: string := "callback_signin"
  const CallbackIsStudent: string := "student"
  const CallbackIsTeacher: string := "teacher"
  const CallbackEmailTrue: string := "callback_enable_email_1"
  const CallbackEmailFalse: string := "callback_enable_email_0"
  const CallbackCreateClassroom: string := "callback_create_classroom"
  const CallbackCreateTask: string := "callback_create_task"

  /**
   * The chat's FSM state: none, one of the declared `UserStatus` states, or the state the
   * task handlers wait for a deadline in, which `UserStatus` does not declare.
   */
  datatype FsmState = NoState | InStatus(status: UserStatus) | WaitTaskDeadline

  /** What a user message carries. Photos and documents come with the file's path and bytes. */
  datatype Content =
    | Text(text: string)
    | Photo(path: string, bytes: seq<bv8>)
    | Document(path: string, bytes: seq<bv8>)
    | OtherContent

  /** An update from Telegram for this chat. */
  datatype Event =
    | Message(messageId: int, content: Content)
    | CallbackQuery(queryId: string, data: string)

  /** The registered handlers, plus `Unhandled` when no filter set passes. */
  datatype Target =
    | StartCommand
    | HelpCommand
    | EmailStep
    | NameStep
    | ClassroomNameStep
    | AddGroupButton
    | ClassroomIdStep
    | MyGroupsButton
    | MyMarksButton
    | DeadlinesButton
    | CreateGroupButton
    | ManagedGroupsButton
    | TaskDescriptionStep
    | TaskDeadlineStep
    | RegisterCallback
    | SignInCallback
    | ModeCallback
    | EmailConsentCallback
    | CreateClassroomCallback
    | ViewGroupCallback
    | CreateTaskCallback
    | SubmitTaskCallback
    | Unhandled

  function LowerAscii(s: string): (r: string)
    ensures |r| == |s|
    ensures forall k | 0 <= k < |s| :: r[k] == if 'A' <= s[k] <= 'Z' then (s[k] as int + 32) as char else s[k]
  {
    if |s| == 0 then []
    else [if 'A' <= s[0] <= 'Z' then (s[0] as int + 32) as char else s[0]] + LowerAscii(s[1..])
  }

  /**
   * The characters Python's `str.split()` splits on, those `str.isspace()` accepts: the ASCII
   * controls 9-13 and 28-31, the space, and the Unicode spaces and line separators.
   */
  predicate IsWhitespace(c: char)
  {
    var n := c as int;
    || 9 <= n <= 13 || 28 <= n <= 32
    || n == 0x85 || n == 0xA0 || n == 0x1680
    || 0x2000 <= n <= 0x200A || n == 0x2028 || n == 0x2029 || n == 0x202F || n == 0x205F
    || n == 0x3000
  }

  predicate IsWordChar(c: char)
  {
    !IsWhitespace(c)
  }

  /** `text.split()[0]`: the first run of non-whitespace, or "" when there is none. */
  function FirstWord(text: string): (w: string)
    ensures AllChars(w, IsWordChar)
    ensures w == "" <==> AllChars(text, IsWhitespace)
  {
    var i := FirstNot(text, IsWhitespace);
    var rest := text[i..];
    var j := FirstNot(rest, IsWordChar);
    assert i < |text| ==> j >= 1;
    rest[..j]
  }

  /**
   * aiogram's `commands=[name]` filter: the first word is "/" and the command, compared
   * without regard to case, optionally followed by "@" and a mention that must be empty
   * or this bot's name.
   */
  predicate IsCommand(text: string, name: string, botName: string)
  {
    CommandWord(FirstWord(text), name, botName)
  }

  predicate CommandWord(word: string, name: string, botName: string)
  {
    && |word| >= 1 && word[0] == '/'
    && var rest := word[1..];
    && match IndexOf(rest, '@')
       case None => LowerAscii(rest) == name
       case Some(i) =>
         && LowerAscii(rest[..i]) == name
         && (rest[i + 1..] == "" || LowerAscii(rest[i + 1..]) == LowerAscii(botName))
  }

  /** A text without whitespace is its own first word. */
  lemma FirstWordOfWord(w: string)
    requires w != "" && AllChars(w, IsWordChar)
    ensures FirstWord(w) == w
  {
    assert FirstNot(w, IsWhitespace) == 0;
    assert w[0..] == w;
  }

  /** A text that starts with neither whitespace nor '/' is not a command. */
  lemma NotCommand(text: string, name: string, botName: string)
    requires text != "" && !IsWhitespace(text[0]) && text[0] != '/'
    ensures !IsCommand(text, name, botName)
  {
    assert FirstNot(text, IsWhitespace) == 0;
    assert text[0..] == text;
  }

  /**
   * The `state=` filter each handler is registered with: none for the commands, the
   * registration callbacks and the student's buttons; `UserStatus.all_states`, every state but
   * none, for "Create group" and "Managed groups"; one state for each of the others.
   */
  predicate RegisteredFor(t: Target, s: FsmState)
  {
    match t
    case StartCommand | HelpCommand | AddGroupButton | MyGroupsButton | MyMarksButton | DeadlinesButton => s == NoState
    case RegisterCallback | SignInCallback | ModeCallback | EmailConsentCallback | CreateClassroomCallback => s == NoState
    case EmailStep => s == InStatus(WaitEmail)
    case NameStep => s == InStatus(WaitFullName)
    case ClassroomNameStep => s == InStatus(WaitClassroomName)
    case ClassroomIdStep => s == InStatus(StudentAddGroup)
    case CreateGroupButton | ManagedGroupsButton => s != NoState
    case TaskDescriptionStep => s == InStatus(TeacherCreateTask)
    case TaskDeadlineStep | SubmitTaskCallback => s == WaitTaskDeadline
    case ViewGroupCallback => s == InStatus(TeacherViewGroups)
    case CreateTaskCallback => s == InStatus(TeacherGroupsActions)
    case Unhandled => true
  }

  /** The handlers registered with `callback_query_handler`; the others are message handlers. */
  predicate IsCallbackHandler(t: Target)
  {
    || t == RegisterCallback || t == SignInCallback || t == ModeCallback || t == EmailConsentCallback
    || t == CreateClassroomCallback || t == ViewGroupCallback || t == CreateTaskCallback || t == SubmitTaskCallback
  }

  /**
   * The message handler for a text while the chat is in `state`, given whether the text is
   * the "/start" and the "/help" command. Handlers registered with `UserStatus.all_states` fire
   * in every state but none; the deadline-wait state, once declared, is among them.
   */
  function TextTarget(state: FsmState, t: string, isStart: bool, isHelp: bool): (r: Target)
    ensures RegisteredFor(r, state) && !IsCallbackHandler(r)
  {
    if state == NoState && isStart then StartCommand
    else if state == NoState && isHelp then HelpCommand
    else if state == InStatus(WaitEmail) then EmailStep
    else if state == InStatus(WaitFullName) then NameStep
    else if state == InStatus(WaitClassroomName) then ClassroomNameStep
    else if state == NoState && t == "Add group" then AddGroupButton
    else if state == InStatus(StudentAddGroup) then ClassroomIdStep
    else if state == NoState && t == "My groups" then MyGroupsButton
    else if state == NoState && t == "My marks" then MyMarksButton
    else if state == NoState && t == "Deadlines" then DeadlinesButton
    else if state != NoState && t == "Create group" then CreateGroupButton
    else if state != NoState && t == "Managed groups" then ManagedGroupsButton
    else if state == InStatus(TeacherCreateTask) then TaskDescriptionStep
    else if state == WaitTaskDeadline then TaskDeadlineStep
    else Unhandled
  }

  /** The handler aiogram runs for `event` while the chat is in `state`. */
  function Dispatch(state: FsmState, event: Event, botName: string): (r: Target)
    ensures RegisteredFor(r, state)
    ensures r != Unhandled ==> (event.CallbackQuery? <==> IsCallbackHandler(r))
    ensures event.Message? && (event.content.Photo? || event.content.Document?) ==>
      r == if state == InStatus(TeacherCreateTask) then TaskDescriptionStep else Unhandled
    ensures event.Message? && event.content.OtherContent? ==> r == Unhandled
  {
    match event
    case Message(_, content) =>
      (match content
      case Text(t) => TextTarget(state, t, IsCommand(t, "start", botName), IsCommand(t, "help", botName))
      case Photo(_, _) => if state == InStatus(TeacherCreateTask) then TaskDescriptionStep else Unhandled
      case Document(_, _) => if state == InStatus(TeacherCreateTask) then TaskDescriptionStep else Unhandled
      case OtherContent => Unhandled)
    case CallbackQuery(_, d) =>
      if state == NoState && d == CallbackRegister then RegisterCallback
      else if state == NoState && d == CallbackSignIn then SignInCallback
      else if state == NoState && (d == CallbackIsStudent || d == CallbackIsTeacher) then ModeCallback
      else if state == NoState && d == CallbackEmailTrue then EmailConsentCallback
      else if state == NoState && d == CallbackCreateClassroom then CreateClassroomCallback
      else if state == InStatus(TeacherViewGroups) then ViewGroupCallback
      else if state == InStatus(TeacherGroupsActions) && d == CallbackCreateTask then CreateTaskCallback
      else if state == WaitTaskDeadline then SubmitTaskCallback
      else Unhandled
  }

  /** The states in which the "Create group" button reaches its handler. */
  predicate CreateGroupReaches(s: FsmState)
  {
    || s == InStatus(Registration) || s == InStatus(MainMenu) || s == InStatus(TeacherViewGroups)
    || s == InStatus(TeacherGroupsActions) || s == InStatus(TeacherCreateTask) || s == WaitTaskDeadline
  }

  /**
   * "Create group" reaches `teacher_create_group` in a declared state exactly when no
   * earlier text handler owns that state (see `WaitingStatesTakeAnyText` for the four states
   * that take the button's text as their answer); with no state it is not handled at all.
   */
  lemma CreateGroupRoute(s: FsmState, mid: int, t: string, botName: string)
    requires t == "Create group"
    ensures Dispatch(s, Message(mid, Text(t)), botName) == CreateGroupButton <==> CreateGroupReaches(s)
    ensures s == NoState ==> Dispatch(s, Message(mid, Text(t)), botName) == Unhandled
  {
    NotCommand(t, "start", botName);
    NotCommand(t, "help", botName);
    assert Dispatch(s, Message(mid, Text(t)), botName) == TextTarget(s, t, false, false);
    CreateGroupText(s, t);
  }

  /** Where the text "Create group" goes in each state, when it is not a command. */
  lemma CreateGroupText(s: FsmState, t: string)
    requires t == "Create group"
    ensures TextTarget(s, t, false, false) == CreateGroupButton <==> CreateGroupReaches(s)
    ensures s == NoState ==> TextTarget(s, t, false, false) == Unhandled
  {
    assert t != "Add group" && t != "My groups" && t != "My marks" && t != "Deadlines" && t != "Managed groups";
    match s
    case NoState =>
    case WaitTaskDeadline =>
    case InStatus(status) =>
      match status
      case Registration =>
      case WaitEmail =>
      case WaitFullName =>
      case WaitClassroomName =>
      case MainMenu =>
      case StudentAddGroup =>
      case TeacherViewGroups =>
      case TeacherGroupsActions =>
      case TeacherCreateTask =>
  }

  /** The "Add group" button is handled exactly while the chat has no state, so never from the main menu. */
  lemma AddGroupNeedsNoState(s: FsmState, mid: int, t: string, botName: string)
    requires t == "Add group"
    ensures Dispatch(s, Message(mid, Text(t)), botName) == AddGroupButton <==> s == NoState
    ensures s == InStatus(MainMenu) ==> Dispatch(s, Message(mid, Text(t)), botName) == Unhandled
  {
    NotCommand(t, "start", botName);
    NotCommand(t, "help", botName);
    assert Dispatch(s, Message(mid, Text(t)), botName) == TextTarget(s, t, false, false);
    AddGroupText(s, t);
  }

  /** Where the text "Add group" goes in each state, when it is not a command. */
  lemma AddGroupText(s: FsmState, t: string)
    requires t == "Add group"
    ensures TextTarget(s, t, false, false) == AddGroupButton <==> s == NoState
    ensures s == InStatus(MainMenu) ==> TextTarget(s, t, false, false) == Unhandled
  {
    assert t != "My groups" && t != "Deadlines" && t != "Create group" && t != "Managed groups" by {
      assert t[0] == 'A';
    }
    match s
    case NoState =>
    case WaitTaskDeadline =>
    case InStatus(status) =>
  }

  /** A state that waits for typed text takes every text message, whatever it says. */
  lemma WaitingStatesTakeAnyText(s: UserStatus, mid: int, t: string, botName: string)
    ensures s == WaitEmail ==> Dispatch(InStatus(s), Message(mid, Text(t)), botName) == EmailStep
    ensures s == WaitFullName ==> Dispatch(InStatus(s), Message(mid, Text(t)), botName) == NameStep
    ensures s == WaitClassroomName ==> Dispatch(InStatus(s), Message(mid, Text(t)), botName) == ClassroomNameStep
    ensures s == StudentAddGroup ==> Dispatch(InStatus(s), Message(mid, Text(t)), botName) == ClassroomIdStep
  {
    assert Dispatch(InStatus(s), Message(mid, Text(t)), botName) ==
      TextTarget(InStatus(s), t, IsCommand(t, "start", botName), IsCommand(t, "help", botName));
  }

  /** Every registration callback is ignored once the chat has any state. */
  lemma CallbacksNeedNoState(s: FsmState, q: string, d: string, botName: string)
    requires s != NoState
    ensures Dispatch(s, CallbackQuery(q, d), botName) !in
      {RegisterCallback, SignInCallback, ModeCallback, EmailConsentCallback, CreateClassroomCallback}
  {
  }

  /** Lower-casing leaves a text without capitals as it is. */
  lemma LowerAsciiNoCapitals(s: string)
    requires forall k | 0 <= k < |s| :: !('A' <= s[k] <= 'Z')
    ensures LowerAscii(s) == s
  {
  }

  /** A text is a command for `name` when its first word is "/" and the name. */
  lemma PlainCommand(t: string, name: string, botName: string)
    requires |t| >= 1 && t[0] == '/' && AllChars(t, IsWordChar) && '@' !in t
    requires LowerAscii(t[1..]) == name
    ensures IsCommand(t, name, botName)
  {
    FirstWordOfWord(t);
  }

  /** Printable ASCII characters other than the space are never whitespace. */
  lemma PrintableWord(w: string)
    requires forall k | 0 <= k < |w| :: '!' <= w[k] <= '~'
    ensures AllChars(w, IsWordChar)
  {
  }

  /** "/start" is a command. */
  lemma StartCommandPlain(t: string, botName: string)
    requires t == "/start"
    ensures IsCommand(t, "start", botName)
  {
    PrintableWord(t);
    assert t[1..] == "start";
    LowerAsciiNoCapitals("start");
    PlainCommand(t, "start", botName);
  }

  /** "/START" is the same command: case does not matter. */
  lemma StartCommandCapitals(t: string, botName: string)
    requires t == "/START"
    ensures IsCommand(t, "start", botName)
  {
    PrintableWord(t);
    assert t[1..] == "START";
    assert LowerAscii("START") == "start";
    PlainCommand(t, "start", botName);
  }

  /** A word "/command@mention" is a command for `name` when the mention is empty or names this bot. */
  lemma MentionCommand(word: string, k: nat, name: string, botName: string)
    requires 1 <= k < |word| && word[0] == '/' && word[k] == '@' && '@' !in word[1..k]
    requires AllChars(word, IsWordChar)
    ensures IsCommand(word, name, botName) <==>
      LowerAscii(word[1..k]) == name && (word[k + 1..] == "" || LowerAscii(word[k + 1..]) == LowerAscii(botName))
  {
    FirstWordOfWord(word);
    var rest := word[1..];
    assert rest[..k - 1] == word[1..k];
    IndexOfAt(rest, '@', k - 1);
    assert rest[k..] == word[k + 1..];
  }

  /** "/start@" followed by a mention without whitespace: a word whose '@' is at index 6. */
  lemma StartMentionWord(mention: string) returns (word: string)
    requires AllChars(mention, IsWordChar)
    ensures word == "/start@" + mention
    ensures word[0] == '/' && word[6] == '@' && word[1..6] == "start" && '@' !in word[1..6]
    ensures word[7..] == mention && AllChars(word, IsWordChar)
  {
    word := "/start@" + mention;
    assert word[1..6] == "start";
    assert word[7..] == mention;
    forall k | 0 <= k < |word| ensures IsWordChar(word[k]) {
      if k >= 7 {
        assert word[k] == mention[k - 7];
      }
    }
  }

  /** "/start" addressed to this bot is a command. */
  lemma StartCommandMention(botName: string)
    requires AllChars(botName, IsWordChar)
    ensures IsCommand("/start@" + botName, "start", botName)
  {
    LowerAsciiNoCapitals("start");
    var word := StartMentionWord(botName);
    MentionCommand(word, 6, "start", botName);
  }

  /** "/start" addressed to another bot is not a command for this one. */
  lemma StartCommandOtherBot(other: string, botName: string)
    requires other == "other" && LowerAscii(botName) != other
    ensures !IsCommand("/start@" + other, "start", botName)
  {
    LowerAsciiNoCapitals(other);
    var word := StartMentionWord(other);
    MentionCommand(word, 6, "start", botName);
  }

  /**
   * `str.split()` separates words at Unicode spaces too: "/start" followed by a no-break space
   * and more text is the command.
   */
  lemma StartCommandUnicodeSpace(text: string, botName: string)
    requires text == "/start\U{00A0}now"
    ensures IsCommand(text, "start", botName)
  {
    assert text == "/start" + ['\U{00A0}'] + "now";
    StartThenSpace('\U{00A0}', "now", botName);
  }

  /** "/start", whitespace, then anything: the start command. */
  lemma StartThenSpace(c: char, tail: string, botName: string)
    requires IsWhitespace(c)
    ensures IsCommand("/start" + [c] + tail, "start", botName)
  {
    var start := "/start";
    StartCommandPlain(start, botName);
    PrintableWord(start);
    FirstWordOfWord(start);
    CommandBeforeSpace(start, c, tail, "start", botName);
  }

  /** Leading Unicode spaces are skipped as well: "/start" after a no-break space is the command. */
  lemma StartCommandAfterUnicodeSpace(text: string, botName: string)
    requires text == "\U{00A0}/start"
    ensures IsCommand(text, "start", botName)
  {
    var start := "/start";
    StartCommandPlain(start, botName);
    assert text == [text[0]] + start;
    CommandAfterSpace(text[0], start, "start", botName);
  }

  /** A command word stays the command when whitespace and more text follow it. */
  lemma CommandBeforeSpace(word: string, c: char, tail: string, name: string, botName: string)
    requires word != "" && AllChars(word, IsWordChar) && IsWhitespace(c)
    requires CommandWord(word, name, botName)
    ensures IsCommand(word + [c] + tail, name, botName)
  {
    FirstWordBeforeSpace(word, c, tail);
  }

  /** A command stays the command after leading whitespace. */
  lemma CommandAfterSpace(c: char, t: string, name: string, botName: string)
    requires IsWhitespace(c) && t != "" && !IsWhitespace(t[0])
    requires IsCommand(t, name, botName)
    ensures IsCommand([c] + t, name, botName)
  {
    FirstWordAfterSpace(c, t);
  }

  /** A word followed by whitespace is the first word, whatever comes after. */
  lemma FirstWordBeforeSpace(w: string, c: char, tail: string)
    requires w != "" && AllChars(w, IsWordChar) && IsWhitespace(c)
    ensures FirstWord(w + [c] + tail) == w
  {
    var text := w + [c] + tail;
    FirstNotAt(text, IsWhitespace, 0);
    assert text[0..] == text;
    assert text[..|w|] == w;
    FirstNotAt(text, IsWordChar, |w|);
  }

  /** Leading whitespace does not change the first word. */
  lemma FirstWordAfterSpace(c: char, t: string)
    requires IsWhitespace(c) && t != "" && !IsWhitespace(t[0])
    ensures FirstWord([c] + t) == FirstWord(t)
  {
    var text := [c] + t;
    assert text[..1] == [c];
    FirstNotAt(text, IsWhitespace, 1);
    FirstNotAt(t, IsWhitespace, 0);
    assert text[1..] == t;
    assert t[0..] == t;
  }
}
