/**
 * common/helper.py: the conversation states, the two input validators and the MD5 digest.
 *
 * Each validator is given twice: once as the regular expression read literally
 * (a grammar with existential choices, exactly as `re.fullmatch` accepts it), and once
 * as a direct characterisation that decides it by looking at separators and neighbours.
 * The lemmas `EmailIff` and `FullNameIff` prove the two agree on every string.
 */
module Helper {
  import opened Wrappers
  import opened Strings

  /** `UserStatus(StatesGroup)`: the nine declared conversation states. */
  datatype UserStatus =
    | Registration
    | WaitEmail
    | WaitFullName
    | WaitClassroomName
    | MainMenu
    | StudentAddGroup
    | TeacherViewGroups
    | TeacherGroupsActions
    | TeacherCreateTask

  /** `UserStatus.all_states`, in declaration order. */
  const AllStates: seq<UserStatus> := [
    Registration, WaitEmail, WaitFullName, WaitClassroomName, MainMenu,
    StudentAddGroup, TeacherViewGroups, TeacherGroupsActions, TeacherCreateTask
  ]

  /** Every state is listed in `all_states`, at a single position: the set is closed and has nine members. */
  function Position(s: UserStatus): (i: nat)
    ensures i < |AllStates| == 9 && AllStates[i] == s
    ensures forall j | 0 <= j < |AllStates| && AllStates[j] == s :: j == i
  {
    match s
    case Registration => 0
    case WaitEmail => 1
    case WaitFullName => 2
    case WaitClassroomName => 3
    case MainMenu => 4
    case StudentAddGroup => 5
    case TeacherViewGroups => 6
    case TeacherGroupsActions => 7
    case TeacherCreateTask => 8
  }

  // ---------------------------------------------------------------------------
  // Character classes of the two patterns

  predicate IsLetter(c: char)
  {
    'A' <= c <= 'Z' || 'a' <= c <= 'z'
  }

  /** `[A-Za-z0-9]` */
  predicate IsAlnum(c: char)
  {
    IsLetter(c) || '0' <= c <= '9'
  }

  /**
   * `[.-_]`: a range from '.' (0x2E) to '_' (0x5F). It holds '/', the digits, ':', '@',
   * the upper-case letters, '[', '\', ']' and '^', but not '-' (0x2D).
   */
  predicate IsSeparator(c: char)
  {
    '.' <= c <= '_'
  }

  /** `[A-Za-z0-9-]` */
  predicate IsDomainChar(c: char)
  {
    IsAlnum(c) || c == '-'
  }

  /** `[A-Z|a-z]`: inside a class '|' is a literal, so it is admitted beside the letters. */
  predicate IsTldChar(c: char)
  {
    'A' <= c <= 'Z' || c == '|' || 'a' <= c <= 'z'
  }

  // ---------------------------------------------------------------------------
  // VerifyString.EMAIL, read as a grammar:
  //   ([A-Za-z0-9]+[.-_])*[A-Za-z0-9]+@[A-Za-z0-9-]+(\.[A-Z|a-z]{2,})+

  /** `[A-Za-z0-9]+` */
  predicate AlnumRun(w: string)
  {
    |w| >= 1 && AllChars(w, IsAlnum)
  }

  /** `([A-Za-z0-9]+[.-_])*[A-Za-z0-9]+`: either the last run, or one more group in front of the rest. */
  ghost predicate LocalPart(w: string)
    decreases |w|
  {
    || AlnumRun(w)
    || exists i | 0 < i < |w| - 1 :: AlnumRun(w[..i]) && IsSeparator(w[i]) && LocalPart(w[i + 1..])
  }

  /** `[A-Za-z0-9-]+` */
  predicate DomainLabel(w: string)
  {
    |w| >= 1 && AllChars(w, IsDomainChar)
  }

  /** `(\.[A-Z|a-z]{2,})+`: either one group, or one group in front of the rest. */
  ghost predicate TldGroups(w: string)
    decreases |w|
  {
    && |w| >= 3
    && w[0] == '.'
    && (|| AllChars(w[1..], IsTldChar)
        || exists j | 3 <= j < |w| :: AllChars(w[1..j], IsTldChar) && TldGroups(w[j..]))
  }

  /** `re.fullmatch(VerifyString.EMAIL.value, w)` succeeds. */
  ghost predicate EmailPattern(w: string)
  {
    exists k, j | 0 <= k < j < |w| ::
      LocalPart(w[..k]) && w[k] == '@' && DomainLabel(w[k + 1..j]) && TldGroups(w[j..])
  }

  // ---------------------------------------------------------------------------
  // The same language, decided without choices

  /**
   * Position `i` may sit in a local part: it is alphanumeric, or it is a separator strictly
   * inside the word with an alphanumeric on either side.
   */
  predicate LocalCharAt(w: string, i: nat)
    requires i < |w|
  {
    || IsAlnum(w[i])
    || (IsSeparator(w[i]) && 0 < i < |w| - 1 && IsAlnum(w[i - 1]) && IsAlnum(w[i + 1]))
  }

  /** A local part: alphanumeric at both ends, separators only between two alphanumerics. */
  predicate IsLocalPart(w: string)
  {
    |w| >= 1 && forall i | 0 <= i < |w| :: LocalCharAt(w, i)
  }

  /** Position `i` may sit in dot groups: a letter (or '|'), or a '.' followed by two of them. */
  predicate TldCharAt(w: string, i: nat)
    requires i < |w|
  {
    if w[i] == '.' then i + 2 < |w| && IsTldChar(w[i + 1]) && IsTldChar(w[i + 2]) else IsTldChar(w[i])
  }

  /** Dot groups: starts with '.', and every '.' is followed by at least two letters (or '|'). */
  predicate IsTldGroups(w: string)
  {
    |w| >= 1 && w[0] == '.' && forall i | 0 <= i < |w| :: TldCharAt(w, i)
  }

  /**
   * The e-mail check used by the registration dialogue. Neither the domain label nor the
   * dot groups can hold '@', so the separating '@' is the last one; the domain label holds
   * no '.', so it ends at the first '.' after that '@'.
   */
  predicate IsEmail(w: string)
  {
    match LastIndexOf(w, '@')
    case None => false
    case Some(k) => IsLocalPart(w[..k]) && IsEmailDomain(w[k + 1..])
  }

  /** What follows the '@': a domain label up to the first '.', then the dot groups. */
  predicate IsEmailDomain(tail: string)
  {
    match IndexOf(tail, '.')
    case None => false
    case Some(d) => DomainLabel(tail[..d]) && IsTldGroups(tail[d..])
  }

  /** A run, a separator and a local part make a local part. */
  lemma LocalPartCons(w: string, i: nat)
    requires 0 < i < |w| - 1 && AlnumRun(w[..i]) && IsSeparator(w[i]) && IsLocalPart(w[i + 1..])
    ensures IsLocalPart(w)
  {
    var rest := w[i + 1..];
    assert IsAlnum(w[i - 1]) by {
      assert w[i - 1] == w[..i][i - 1];
    }
    assert IsAlnum(w[i + 1]) by {
      assert LocalCharAt(rest, 0) && rest[0] == w[i + 1];
    }
    forall k | 0 <= k < |w| ensures LocalCharAt(w, k) {
      if k < i {
        assert w[k] == w[..i][k];
      } else if k > i + 1 {
        var m := k - i - 1;
        assert LocalCharAt(rest, m);
        assert w[k] == rest[m] && w[k - 1] == rest[m - 1];
        assert k + 1 < |w| ==> w[k + 1] == rest[m + 1];
      }
    }
  }

  /** A local part that is not a single run splits at its first non-alphanumeric character. */
  lemma LocalPartUncons(w: string) returns (i: nat)
    requires IsLocalPart(w) && !AlnumRun(w)
    ensures 0 < i < |w| - 1 && AlnumRun(w[..i]) && IsSeparator(w[i]) && IsLocalPart(w[i + 1..])
  {
    i := FirstNot(w, IsAlnum);
    assert i < |w| by {
      assert w[..|w|] == w;
    }
    assert LocalCharAt(w, i);
    var rest := w[i + 1..];
    forall m | 0 <= m < |rest| ensures LocalCharAt(rest, m) {
      var k := m + i + 1;
      assert LocalCharAt(w, k);
      assert rest[m] == w[k];
      assert m > 0 ==> rest[m - 1] == w[k - 1];
      assert m + 1 < |rest| ==> rest[m + 1] == w[k + 1];
    }
  }

  lemma {:induction false} LocalPartChecked(w: string)
    requires LocalPart(w)
    ensures IsLocalPart(w)
    decreases |w|
  {
    if !AlnumRun(w) {
      var i :| 0 < i < |w| - 1 && AlnumRun(w[..i]) && IsSeparator(w[i]) && LocalPart(w[i + 1..]);
      LocalPartChecked(w[i + 1..]);
      LocalPartCons(w, i);
    }
  }

  lemma {:induction false} CheckedLocalPart(w: string)
    requires IsLocalPart(w)
    ensures LocalPart(w)
    decreases |w|
  {
    if !AlnumRun(w) {
      var i := LocalPartUncons(w);
      CheckedLocalPart(w[i + 1..]);
    }
  }

  lemma LocalPartIff(w: string)
    ensures LocalPart(w) <==> IsLocalPart(w)
  {
    if LocalPart(w) {
      LocalPartChecked(w);
    }
    if IsLocalPart(w) {
      CheckedLocalPart(w);
    }
  }

  /** Dot groups start with a '.' and two letters (or '|'). */
  lemma TldGroupsStart(w: string)
    requires IsTldGroups(w)
    ensures |w| >= 3 && IsTldChar(w[1]) && IsTldChar(w[2])
  {
    assert TldCharAt(w, 0);
  }

  /** Positions of a suffix are positions of the whole. */
  lemma TldCharShift(w: string, j: nat, k: nat)
    requires j <= k < |w|
    ensures TldCharAt(w[j..], k - j) <==> TldCharAt(w, k)
  {
    var rest := w[j..];
    assert rest[k - j] == w[k];
    assert k + 1 < |w| ==> rest[k - j + 1] == w[k + 1];
    assert k + 2 < |w| ==> rest[k - j + 2] == w[k + 2];
  }

  lemma {:induction false} TldGroupsChecked(w: string)
    requires TldGroups(w)
    ensures IsTldGroups(w)
    decreases |w|
  {
    assert IsTldChar(w[1]) && IsTldChar(w[2]) by {
      assert w[1] == w[1..][0] && w[2] == w[1..][1];
    }
    if AllChars(w[1..], IsTldChar) {
      forall k | 0 < k < |w| ensures TldCharAt(w, k) {
        assert w[k] == w[1..][k - 1];
      }
    } else {
      var j :| 3 <= j < |w| && AllChars(w[1..j], IsTldChar) && TldGroups(w[j..]);
      TldGroupsChecked(w[j..]);
      forall k | 0 < k < |w| ensures TldCharAt(w, k) {
        if k < j {
          assert w[k] == w[1..j][k - 1];
        } else {
          TldCharShift(w, j, k);
        }
      }
    }
    assert TldCharAt(w, 0);
  }

  lemma {:induction false} CheckedTldGroups(w: string)
    requires IsTldGroups(w)
    ensures TldGroups(w)
    decreases |w|
  {
    TldGroupsStart(w);
    var tail := w[1..];
    match IndexOf(tail, '.')
    case None =>
      forall m | 0 <= m < |tail| ensures IsTldChar(tail[m]) {
        assert tail[m] == w[m + 1] && TldCharAt(w, m + 1);
      }
    case Some(d) =>
      var j := d + 1;
      assert j >= 3 by {
        assert tail[0] == w[1] && tail[1] == w[2];
      }
      forall m | 0 <= m < j - 1 ensures IsTldChar(w[1..j][m]) {
        assert w[1..j][m] == tail[..d][m] == w[m + 1];
        assert TldCharAt(w, m + 1);
      }
      var rest := w[j..];
      forall m | 0 <= m < |rest| ensures TldCharAt(rest, m) {
        TldCharShift(w, j, m + j);
      }
      CheckedTldGroups(rest);
  }

  lemma TldGroupsIff(w: string)
    ensures TldGroups(w) <==> IsTldGroups(w)
  {
    if TldGroups(w) {
      TldGroupsChecked(w);
    }
    if IsTldGroups(w) {
      CheckedTldGroups(w);
    }
  }

  /** No character of the domain label or the dot groups is '@', and the label holds no '.'. */
  lemma EmailTailHasNoAt(w: string, k: nat, j: nat)
    requires k < j <= |w|
    requires DomainLabel(w[k + 1..j]) && IsTldGroups(w[j..])
    ensures '@' !in w[k + 1..]
    ensures '.' !in w[k + 1..j]
  {
    forall i | k + 1 <= i < |w| ensures w[i] != '@' {
      assert i < j ==> w[i] == w[k + 1..j][i - k - 1];
      if j <= i {
        assert w[i] == w[j..][i - j] && TldCharAt(w[j..], i - j);
      }
    }
    forall i | k + 1 <= i < j ensures w[i] != '.' {
      assert w[i] == w[k + 1..j][i - k - 1];
    }
  }

  /** The parts the pattern matched are the parts the direct checker `IsEmail` finds. */
  lemma EmailPartsChecked(w: string, k: nat, j: nat)
    requires k < j < |w| && w[k] == '@'
    requires IsLocalPart(w[..k]) && DomainLabel(w[k + 1..j]) && IsTldGroups(w[j..])
    ensures IsEmail(w)
  {
    EmailTailHasNoAt(w, k, j);
    LastIndexOfAt(w, '@', k);
    DomainChecked(w, k, j);
    EmailFromParts(w, k);
  }

  /** `IsEmail` read off the index of its '@'. */
  lemma EmailFromParts(w: string, k: nat)
    requires LastIndexOf(w, '@') == Some(k) && IsLocalPart(w[..k]) && IsEmailDomain(w[k + 1..])
    ensures IsEmail(w)
  {
    match LastIndexOf(w, '@')
    case Some(k') =>
      assert k' == k;
  }

  /** After the '@', the first '.' is the one that starts the dot groups. */
  lemma DomainChecked(w: string, k: nat, j: nat)
    requires k < j < |w|
    requires '.' !in w[k + 1..j] && DomainLabel(w[k + 1..j]) && IsTldGroups(w[j..])
    ensures IsEmailDomain(w[k + 1..])
  {
    var tail := w[k + 1..];
    var d := j - k - 1;
    assert tail[..d] == w[k + 1..j];
    assert tail[d..] == w[j..];
    IndexOfAt(tail, '.', d);
    DomainAt(tail, d);
  }

  /** `IsEmailDomain` read off the index of its first '.'. */
  lemma DomainAt(tail: string, d: nat)
    requires IndexOf(tail, '.') == Some(d) && DomainLabel(tail[..d]) && IsTldGroups(tail[d..])
    ensures IsEmailDomain(tail)
  {
  }

  lemma EmailPatternChecked(w: string)
    requires EmailPattern(w)
    ensures IsEmail(w)
  {
    var k, j :| 0 <= k < j < |w| && LocalPart(w[..k]) && w[k] == '@' && DomainLabel(w[k + 1..j]) && TldGroups(w[j..]);
    LocalPartIff(w[..k]);
    TldGroupsIff(w[j..]);
    EmailPartsChecked(w, k, j);
  }

  lemma EmailCheckedPattern(w: string)
    requires IsEmail(w)
    ensures EmailPattern(w)
  {
    var k, j := EmailSplit(w);
    LocalPartIff(w[..k]);
    TldGroupsIff(w[j..]);
    EmailPatternAt(w, k, j);
  }

  /** The three parts an accepted address consists of, at the indices the direct checker `IsEmail` finds. */
  lemma EmailSplit(w: string) returns (k: nat, j: nat)
    requires IsEmail(w)
    ensures k < j < |w| && w[k] == '@'
    ensures IsLocalPart(w[..k]) && DomainLabel(w[k + 1..j]) && IsTldGroups(w[j..])
  {
    k := EmailAt(w);
    j := DomainDotIn(w, k + 1);
  }

  /** The '.' `IsEmailDomain` splits the suffix from `a` at, as an index of the whole string. */
  lemma DomainDotIn(w: string, a: nat) returns (j: nat)
    requires a <= |w| && IsEmailDomain(w[a..])
    ensures a <= j < |w| && DomainLabel(w[a..j]) && IsTldGroups(w[j..])
  {
    var d := DomainDot(w[a..]);
    Reslice(w, a, d);
    j := a + d;
  }

  /** A slice of a suffix is a slice of the whole. */
  lemma Reslice(w: string, a: nat, d: nat)
    requires a + d <= |w|
    ensures w[a..][..d] == w[a..a + d] && w[a..][d..] == w[a + d..]
  {
  }

  /** The '@' `IsEmail` splits at. */
  lemma EmailAt(w: string) returns (k: nat)
    requires IsEmail(w)
    ensures k < |w| && w[k] == '@' && IsLocalPart(w[..k]) && IsEmailDomain(w[k + 1..])
  {
    k := LastIndexOf(w, '@').value;
  }

  /** The '.' `IsEmailDomain` splits at. */
  lemma DomainDot(tail: string) returns (d: nat)
    requires IsEmailDomain(tail)
    ensures d < |tail| && DomainLabel(tail[..d]) && IsTldGroups(tail[d..])
  {
    d := IndexOf(tail, '.').value;
  }

  /** The pattern's witnesses, given the three parts. */
  lemma EmailPatternAt(w: string, k: nat, j: nat)
    requires k < j < |w| && w[k] == '@'
    requires LocalPart(w[..k]) && DomainLabel(w[k + 1..j]) && TldGroups(w[j..])
    ensures EmailPattern(w)
  {
  }

  /** The e-mail check accepts exactly the strings `re.fullmatch` accepts with VerifyString.EMAIL. */
  lemma EmailIff(w: string)
    ensures EmailPattern(w) <==> IsEmail(w)
  {
    if EmailPattern(w) {
      EmailPatternChecked(w);
    }
    if IsEmail(w) {
      EmailCheckedPattern(w);
    }
  }

  /** The separator range admits '@', so "a@b@c.com" is accepted: "a@b" is a local part. */
  lemma SecondAtAccepted(w: string)
    requires w == "a@b@c.com"
    ensures IsEmail(w)
  {
    assert w[..3] == "a@b" && w[4..5] == "c" && w[5..] == ".com";
    assert LocalCharAt("a@b", 1);
    assert IsLocalPart("a@b");
    assert TldCharAt(".com", 0);
    assert IsTldGroups(".com");
    EmailPartsChecked(w, 3, 5);
  }

  /** '-' lies just below the separator range, so a hyphenated local part is rejected. */
  lemma HyphenInLocalPartRejected()
    ensures !IsEmail("john-doe@x.com")
  {
    var w := "john-doe@x.com";
    assert w[9..] == "x.com";
    LastIndexOfAt(w, '@', 8);
    var local := w[..8];
    assert local[4] == '-';
    assert !LocalCharAt(local, 4);
  }

  /** Without an '@' nothing is accepted. */
  lemma NoAtRejected(w: string)
    requires '@' !in w
    ensures !IsEmail(w) && !EmailPattern(w)
  {
    EmailIff(w);
  }

  /** Every accepted address ends in two letters (or '|'): a last dot group is at least two long. */
  lemma EmailEndsInTwoTldChars(w: string)
    requires IsEmail(w)
    ensures |w| >= 3 && IsTldChar(w[|w| - 2]) && IsTldChar(w[|w| - 1])
  {
    var k, j := EmailSplit(w);
    var tld := w[j..];
    TldGroupsEnd(tld);
    assert tld[|tld| - 2] == w[|w| - 2] && tld[|tld| - 1] == w[|w| - 1];
  }

  /** Dot groups end in two letters (or '|'). */
  lemma TldGroupsEnd(t: string)
    requires IsTldGroups(t)
    ensures |t| >= 3 && IsTldChar(t[|t| - 2]) && IsTldChar(t[|t| - 1])
  {
    TldGroupsStart(t);
    assert TldCharAt(t, |t| - 2) && TldCharAt(t, |t| - 1);
  }

  /** So "a@b.c" (a one-letter last group) and "a@b." (an empty one) are rejected. */
  lemma ShortLastGroupRejected()
    ensures !IsEmail("a@b.c") && !IsEmail("a@b.")
  {
    if IsEmail("a@b.c") {
      EmailEndsInTwoTldChars("a@b.c");
    }
    if IsEmail("a@b.") {
      EmailEndsInTwoTldChars("a@b.");
    }
  }

  // ---------------------------------------------------------------------------
  // VerifyString.FULL_NAME, read as a grammar:
  //   [A-Za-z\-]{2,25}( [A-Za-z]{2,25})?( [A-Za-z]{2,25})?

  /** `[A-Za-z\-]`: the first name token may hold hyphens. */
  predicate IsFirstTokenChar(c: char)
  {
    IsLetter(c) || c == '-'
  }

  /** A token of 2 to 25 characters of the given class. */
  predicate NameToken(w: string, p: char -> bool)
  {
    2 <= |w| <= 25 && AllChars(w, p)
  }

  /** `re.fullmatch(VerifyString.FULL_NAME.value, w)` succeeds: one, two or three tokens. */
  ghost predicate FullNamePattern(w: string)
  {
    || NameToken(w, IsFirstTokenChar)
    || (exists i | 0 < i < |w| ::
          NameToken(w[..i], IsFirstTokenChar) && w[i] == ' ' && NameToken(w[i + 1..], IsLetter))
    || (exists i, j | 0 < i < j < |w| ::
          && NameToken(w[..i], IsFirstTokenChar) && w[i] == ' '
          && NameToken(w[i + 1..j], IsLetter) && w[j] == ' ' && NameToken(w[j + 1..], IsLetter))
  }

  /**
   * The full-name check used by the registration dialogue: split on single spaces, one to
   * three tokens, each of 2 to 25 characters; only the first may hold '-'.
   */
  predicate IsFullName(w: string)
  {
    var tokens := Split(w, ' ');
    && |tokens| <= 3
    && NameToken(tokens[0], IsFirstTokenChar)
    && forall k | 1 <= k < |tokens| :: NameToken(tokens[k], IsLetter)
  }

  lemma NoSpaceIn(w: string, p: char -> bool)
    requires AllChars(w, p) && !p(' ')
    ensures ' ' !in w
  {
    assert forall i | 0 <= i < |w| :: w[i] != ' ';
  }

  lemma TwoTokensChecked(w: string, i: nat)
    requires 0 < i < |w| && w[i] == ' '
    requires NameToken(w[..i], IsFirstTokenChar) && NameToken(w[i + 1..], IsLetter)
    ensures IsFullName(w)
  {
    var a, b := w[..i], w[i + 1..];
    NoSpaceIn(a, IsFirstTokenChar);
    NoSpaceIn(b, IsLetter);
    assert Join([a, b], ' ') == w;
    SplitOfJoin([a, b], ' ');
  }

  lemma ThreeTokensChecked(w: string, i: nat, j: nat)
    requires 0 < i < j < |w| && w[i] == ' ' && w[j] == ' '
    requires NameToken(w[..i], IsFirstTokenChar) && NameToken(w[i + 1..j], IsLetter) && NameToken(w[j + 1..], IsLetter)
    ensures IsFullName(w)
  {
    var a, b, c := w[..i], w[i + 1..j], w[j + 1..];
    NoSpaceIn(a, IsFirstTokenChar);
    NoSpaceIn(b, IsLetter);
    NoSpaceIn(c, IsLetter);
    JoinThree([a, b, c]);
    assert w == a + " " + b + " " + c;
    SplitOfJoin([a, b, c], ' ');
  }

  lemma JoinThree(tokens: seq<string>)
    requires |tokens| == 3
    ensures Join(tokens, ' ') == tokens[0] + " " + tokens[1] + " " + tokens[2]
  {
    assert tokens[1..][1..] == [tokens[2]];
    assert Join(tokens[1..][1..], ' ') == tokens[2];
    assert Join(tokens[1..], ' ') == tokens[1] + " " + tokens[2];
  }

  /** Where the three tokens of a join of three sit in it. */
  lemma JoinThreeAt(w: string, tokens: seq<string>) returns (i: nat, j: nat)
    requires |tokens| == 3 && Join(tokens, ' ') == w
    ensures i == |tokens[0]| && j == i + 1 + |tokens[1]| && j < |w|
    ensures w[..i] == tokens[0] && w[i] == ' ' && w[i + 1..j] == tokens[1] && w[j] == ' ' && w[j + 1..] == tokens[2]
  {
    JoinThree(tokens);
    ThreeParts(w, tokens[0], tokens[1], tokens[2]);
    i, j := |tokens[0]|, |tokens[0]| + 1 + |tokens[1]|;
  }

  lemma ThreeParts(w: string, a: string, b: string, c: string)
    requires w == a + " " + b + " " + c
    ensures var i, j := |a|, |a| + 1 + |b|;
      w[..i] == a && w[i] == ' ' && w[i + 1..j] == b && w[j] == ' ' && w[j + 1..] == c
  {
  }

  lemma FullNameParsed(w: string)
    requires IsFullName(w)
    ensures FullNamePattern(w)
  {
    var tokens := Split(w, ' ');
    if |tokens| == 1 {
      assert w == tokens[0];
    } else if |tokens| == 2 {
      TwoTokensParsed(w, tokens);
    } else {
      ThreeTokensParsed(w, tokens);
    }
  }

  lemma TwoTokensParsed(w: string, tokens: seq<string>)
    requires |tokens| == 2 && Join(tokens, ' ') == w
    requires NameToken(tokens[0], IsFirstTokenChar) && NameToken(tokens[1], IsLetter)
    ensures FullNamePattern(w)
  {
    var i := |tokens[0]|;
    assert w == tokens[0] + " " + tokens[1];
    assert w[..i] == tokens[0] && w[i] == ' ' && w[i + 1..] == tokens[1];
  }

  lemma ThreeTokensParsed(w: string, tokens: seq<string>)
    requires |tokens| == 3 && Join(tokens, ' ') == w
    requires NameToken(tokens[0], IsFirstTokenChar) && NameToken(tokens[1], IsLetter) && NameToken(tokens[2], IsLetter)
    ensures FullNamePattern(w)
  {
    var i, j := JoinThreeAt(w, tokens);
    ThreeTokensPattern(w, i, j);
  }

  /** The pattern's three-token alternative, given its witnesses. */
  lemma ThreeTokensPattern(w: string, i: nat, j: nat)
    requires 0 < i < j < |w| && w[i] == ' ' && w[j] == ' '
    requires NameToken(w[..i], IsFirstTokenChar) && NameToken(w[i + 1..j], IsLetter) && NameToken(w[j + 1..], IsLetter)
    ensures FullNamePattern(w)
  {
  }

  /** The full-name check accepts exactly the strings `re.fullmatch` accepts with VerifyString.FULL_NAME. */
  lemma FullNameIff(w: string)
    ensures FullNamePattern(w) <==> IsFullName(w)
  {
    if NameToken(w, IsFirstTokenChar) {
      NoSpaceIn(w, IsFirstTokenChar);
      assert Split(w, ' ') == [w];
    } else if exists i | 0 < i < |w| :: NameToken(w[..i], IsFirstTokenChar) && w[i] == ' ' && NameToken(w[i + 1..], IsLetter) {
      var i :| 0 < i < |w| && NameToken(w[..i], IsFirstTokenChar) && w[i] == ' ' && NameToken(w[i + 1..], IsLetter);
      TwoTokensChecked(w, i);
    } else if FullNamePattern(w) {
      var i, j :| 0 < i < j < |w| && NameToken(w[..i], IsFirstTokenChar) && w[i] == ' ' && NameToken(w[i + 1..j], IsLetter) && w[j] == ' ' && NameToken(w[j + 1..], IsLetter);
      ThreeTokensChecked(w, i, j);
    }
    if IsFullName(w) {
      FullNameParsed(w);
    }
  }

  /** A hyphen is accepted in the first token. */
  lemma HyphenInFirstTokenAccepted()
    ensures IsFullName("Jean-Luc Picard")
  {
    var w := "Jean-Luc Picard";
    assert w[..8] == "Jean-Luc" && w[9..] == "Picard";
    assert NameToken("Jean-Luc", IsFirstTokenChar) && NameToken("Picard", IsLetter);
    TwoTokensChecked(w, 8);
  }

  /** A hyphen is rejected in a later token. */
  lemma HyphenInLaterTokenRejected()
    ensures !IsFullName("Anna Smith-Jones")
  {
    assert Join(["Anna", "Smith-Jones"], ' ') == "Anna Smith-Jones";
    SplitOfJoin(["Anna", "Smith-Jones"], ' ');
    assert "Smith-Jones"[5] == '-';
  }

  /** Two spaces in a row leave an empty token, which is too short. */
  lemma DoubleSpaceRejected()
    ensures !IsFullName("Ivan  Ivanov")
  {
    assert Join(["Ivan", "", "Ivanov"], ' ') == "Ivan  Ivanov";
    SplitOfJoin(["Ivan", "", "Ivanov"], ' ');
  }

  // ---------------------------------------------------------------------------
  // get_md5

  predicate IsLowerHex(c: char)
  {
    '0' <= c <= '9' || 'a' <= c <= 'f'
  }

  /** What `hashlib.md5(...).hexdigest()` returns: 32 lower-case hexadecimal digits. */
  predicate IsHexDigest(s: string)
  {
    |s| == 32 && AllChars(s, IsLowerHex)
  }

  type Digest = s: string | IsHexDigest(s) witness "00000000000000000000000000000000"

  /**
   * `get_md5(value)`. The digest itself is not modelled: `md5` stands for it, a function
   * (hence deterministic) from the text `str(value)` to a hexadecimal digest.
   */
  function GetMd5(md5: string -> Digest, value: string): (r: string)
    ensures |r| == 32 && AllChars(r, IsLowerHex)
    ensures ':' !in r && '-' !in r
  {
    var r := md5(value);
    assert forall i | 0 <= i < |r| :: IsLowerHex(r[i]);
    r
  }
}
