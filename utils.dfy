/** The front end's shared helpers: status and case-type presentation, text truncation,
    the email and phone format checks, and a name's initials. */
module FrontendUtils {
  import opened Common
  import opened Store

  // ----- getStatusText / getStatusColor / getCaseTypeColor -----

  function StatusLabel(st: CaseStatus): string {
    match st
    case PENDING => "Pending Review"
    case AWAITING_RESPONSE => "Awaiting Response"
    case ACCEPTED => "Accepted"
    case PANEL_CREATED => "Panel Created"
    case MEDIATION_IN_PROGRESS => "In Mediation"
    case RESOLVED => "Resolved"
    case UNRESOLVED => "Unresolved"
    case REJECTED => "Rejected"
  }

  /** `getStatusText`: a label for each of the eight statuses, anything else unchanged. */
  function StatusText(status: string): string {
    match StatusOf(status)
    case Some(st) => StatusLabel(st)
    case None => status
  }

  /** Each status has its own label, and a string that names no status is shown as it is. */
  lemma StatusTextLabels(a: CaseStatus, b: CaseStatus, other: string)
    ensures StatusText(StatusName(a)) == StatusLabel(a)
    ensures a != b ==> StatusText(StatusName(a)) != StatusText(StatusName(b))
    ensures StatusOf(other).None? ==> StatusText(other) == other
  {
    StatusNamesRoundTrip(a);
    StatusNamesRoundTrip(b);
  }

  const Gray := "bg-gray-100 text-gray-800"

  function StatusColorOf(st: CaseStatus): string {
    match st
    case PENDING => "bg-yellow-100 text-yellow-800"
    case AWAITING_RESPONSE => "bg-blue-100 text-blue-800"
    case ACCEPTED => "bg-green-100 text-green-800"
    case PANEL_CREATED => "bg-purple-100 text-purple-800"
    case MEDIATION_IN_PROGRESS => "bg-indigo-100 text-indigo-800"
    case RESOLVED => "bg-green-100 text-green-800"
    case UNRESOLVED => "bg-red-100 text-red-800"
    case REJECTED => "bg-red-100 text-red-800"
  }

  /** `getStatusColor`: total, gray for anything that is not a status. */
  function StatusColor(status: string): string {
    match StatusOf(status)
    case Some(st) => StatusColorOf(st)
    case None => Gray
  }

  function CaseTypeColorOf(t: CaseType): string {
    match t
    case FAMILY => "bg-pink-100 text-pink-800"
    case BUSINESS => "bg-blue-100 text-blue-800"
    case CRIMINAL => "bg-red-100 text-red-800"
    case PROPERTY => "bg-green-100 text-green-800"
    case OTHER_CASE => Gray
  }

  /** `getCaseTypeColor`: total, gray for OTHER and for anything unknown. */
  function CaseTypeColor(caseType: string): string {
    match CaseTypeOf(caseType)
    case Some(t) => CaseTypeColorOf(t)
    case None => Gray
  }

  /** Gray marks exactly the strings that are no status; among the case types it marks
      OTHER and the unknown ones. */
  lemma ColorDefaults(status: string, caseType: string)
    ensures StatusColor(status) == Gray <==> StatusOf(status).None?
    ensures CaseTypeColor(caseType) == Gray <==> CaseTypeOf(caseType).None? || CaseTypeOf(caseType) == Some(OTHER_CASE)
  {
  }

  // ----- truncateText -----

  /** `text.substring(0, maxLength) + '...'` when the text is longer than the bound. */
  function TruncateText(text: string, maxLength: int): string {
    if |text| <= maxLength then text
    else (if maxLength <= 0 then [] else text[..maxLength]) + "..."
  }

  /** A short enough text is kept; a longer one keeps its first `maxLength` characters
      and gains three dots, so it is exactly three longer than the bound. */
  lemma Truncation(text: string, maxLength: nat)
    ensures |text| <= maxLength ==> TruncateText(text, maxLength) == text
    ensures |text| > maxLength ==>
      && |TruncateText(text, maxLength)| == maxLength + 3
      && TruncateText(text, maxLength)[..maxLength] == text[..maxLength]
      && TruncateText(text, maxLength)[maxLength..] == "..."
  {
  }

  // ----- validateEmail -----

  predicate EmailChar(c: char) {
    !IsJsSpace(c) && c != '@'
  }

  predicate AllEmailChars(s: string) {
    forall k :: 0 <= k < |s| ==> EmailChar(s[k])
  }

  /** `/^[^\s@]+@[^\s@]+\.[^\s@]+$/`: three non-empty runs without white space or `@`,
      joined by an `@` and then a dot. */
  predicate EmailSplitAt(s: string, i: int, j: int) {
    0 < i && i + 1 < j && j + 1 < |s| && s[i] == '@' && s[j] == '.'
    && AllEmailChars(s[..i]) && AllEmailChars(s[i + 1..j]) && AllEmailChars(s[j + 1..])
  }

  predicate ValidateEmail(s: string) {
    exists i, j | 0 <= i <= j < |s| :: EmailSplitAt(s, i, j)
  }

  /** The pattern, as a description: exactly one `@`, not first; no white space; and a
      dot after the `@` that is neither just after it nor last. */
  lemma EmailShape(s: string)
    ensures ValidateEmail(s) <==>
      && (forall k :: 0 <= k < |s| ==> !IsJsSpace(s[k]))
      && (exists i | 0 < i < |s| :: s[i] == '@' && (forall k :: 0 <= k < |s| && k != i ==> s[k] != '@')
            && (exists j | i + 1 < j < |s| - 1 :: s[j] == '.'))
  {
    if ValidateEmail(s) {
      var i, j :| 0 <= i <= j < |s| && EmailSplitAt(s, i, j);
      forall k | 0 <= k < |s| ensures !IsJsSpace(s[k]) && (k != i ==> s[k] != '@') {
        if k < i {
          assert s[..i][k] == s[k];
        } else if i < k < j {
          assert s[i + 1..j][k - i - 1] == s[k];
        } else if k > j {
          assert s[j + 1..][k - j - 1] == s[k];
        }
      }
    }
    if && (forall k :: 0 <= k < |s| ==> !IsJsSpace(s[k]))
       && (exists i | 0 < i < |s| :: s[i] == '@' && (forall k :: 0 <= k < |s| && k != i ==> s[k] != '@')
             && (exists j | i + 1 < j < |s| - 1 :: s[j] == '.'))
    {
      var i :| 0 < i < |s| && s[i] == '@' && (forall k :: 0 <= k < |s| && k != i ==> s[k] != '@')
               && (exists j | i + 1 < j < |s| - 1 :: s[j] == '.');
      var j :| i + 1 < j < |s| - 1 && s[j] == '.';
      forall k | 0 <= k < i ensures EmailChar(s[..i][k]) {
        assert s[..i][k] == s[k];
      }
      var domainStart := s[i + 1..j];
      forall k | 0 <= k < |domainStart| ensures EmailChar(domainStart[k]) {
        assert domainStart[k] == s[i + 1 + k];
      }
      var domainEnd := s[j + 1..];
      forall k | 0 <= k < |domainEnd| ensures EmailChar(domainEnd[k]) {
        assert domainEnd[k] == s[j + 1 + k];
      }
      assert EmailSplitAt(s, i, j);
    }
  }

  // ----- validatePhone -----

  predicate PhoneChar(c: char) {
    IsDigit(c) || IsJsSpace(c) || c == '-' || c == '(' || c == ')'
  }

  /** `/^\+?[\d\s\-\(\)]{10,15}$/`: a `+` may only lead, since it is not one of the
      characters the run allows. */
  predicate ValidatePhone(s: string) {
    10 <= |PhoneDigits(s)| <= 15 && AllPhoneChars(PhoneDigits(s))
  }

  /** What follows the optional leading `+`. */
  function PhoneDigits(s: string): string {
    if |s| > 0 && s[0] == '+' then s[1..] else s
  }

  predicate AllPhoneChars(t: string) {
    forall k :: 0 <= k < |t| ==> PhoneChar(t[k])
  }

  /** A valid number has 10 to 15 characters after an optional leading `+`, and no `+`
      anywhere else; a leading `+` changes nothing about the rest. */
  lemma PhoneShape(s: string, body: string)
    ensures ValidatePhone(s) ==> 10 <= |s| <= 16 && forall k :: 0 < k < |s| ==> s[k] != '+'
    ensures |body| > 0 && body[0] != '+' ==> (ValidatePhone("+" + body) <==> ValidatePhone(body))
  {
    if ValidatePhone(s) {
      if |s| > 0 && s[0] == '+' {
        forall k | 0 < k < |s| ensures s[k] != '+' {
          assert s[1..][k - 1] == s[k];
          assert PhoneChar(s[1..][k - 1]);
        }
      } else {
        forall k | 0 < k < |s| ensures s[k] != '+' {
          assert PhoneChar(s[k]);
        }
      }
    }
    if |body| > 0 && body[0] != '+' {
      var plus := "+" + body;
      assert |plus| > 0 && plus[0] == '+' && plus[1..] == body;
    }
  }

  // ----- generateInitials -----

  /** `.map(word => word.charAt(0).toUpperCase()).join('')`: an empty word adds nothing. */
  function FirstLetters(words: seq<string>): string
    decreases |words|
  {
    if words == [] then []
    else (if words[0] == [] then [] else [UpperChar(words[0][0])]) + FirstLetters(words[1..])
  }

  function NonEmptyWords(words: seq<string>): (r: seq<string>)
    ensures forall k :: 0 <= k < |r| ==> r[k] != []
    decreases |words|
  {
    if words == [] then []
    else (if words[0] == [] then [] else [words[0]]) + NonEmptyWords(words[1..])
  }

  /** One letter per non-empty word, in order: the upper-cased first character. */
  lemma {:induction false} FirstLettersOfWords(words: seq<string>)
    ensures |FirstLetters(words)| == |NonEmptyWords(words)|
    ensures forall k :: 0 <= k < |FirstLetters(words)| ==> FirstLetters(words)[k] == UpperChar(NonEmptyWords(words)[k][0])
    decreases |words|
  {
    if words != [] {
      FirstLettersOfWords(words[1..]);
    }
  }

  function GenerateInitials(name: string): string {
    Take(FirstLetters(Split(name, ' ')), 2)
  }

  /** At most two letters: the initials of the first two non-empty words, upper-cased. */
  lemma InitialsShape(name: string)
    ensures var words := NonEmptyWords(Split(name, ' '));
      && |GenerateInitials(name)| == (if |words| < 2 then |words| else 2)
      && forall k :: 0 <= k < |GenerateInitials(name)| ==> GenerateInitials(name)[k] == UpperChar(words[k][0])
  {
    FirstLettersOfWords(Split(name, ' '));
  }
}
