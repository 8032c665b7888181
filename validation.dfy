/** The two security middlewares of the validation layer: the recursive script check
    over a request's body and query, and the per-file checks on uploads (the name, then
    the leading bytes of the content). */
module Validation {
  import opened Common

  // ----- validateNoScriptTags -----

  predicate IsWordChar(c: char) {
    'a' <= c <= 'z' || 'A' <= c <= 'Z' || '0' <= c <= '9' || c == '_'
  }

  /** `/<script\b[^<]*(?:(?!<\/script>)<[^<]*)*<\/script>/i`: an opening `<script` ending
      at a word boundary and a closing `</script>` somewhere after it. The middle part
      can stretch to the first closing tag after the opening, so the pattern matches
      exactly when such a pair of positions exists. */
  predicate ScriptTag(s: string) {
    var l := Lower(s);
    exists i, j | 0 <= i && i + 7 <= j <= |s| :: ScriptTagAt(l, i, j)
  }

  predicate ScriptTagAt(l: string, i: int, j: int) {
    OccursAt(l, "<script", i) && i + 7 <= j && i + 7 < |l| && !IsWordChar(l[i + 7]) && OccursAt(l, "</script>", j)
  }

  /** `/on\w+\s*=/i`: `on`, at least one word character, optional white space, `=`. */
  predicate EventHandlerAt(l: string, i: int, j: int, m: int) {
    && OccursAt(l, "on", i) && i + 2 < j <= m < |l|
    && (forall k :: i + 2 <= k < j ==> IsWordChar(l[k]))
    && (forall k :: j <= k < m ==> IsJsSpace(l[k]))
    && l[m] == '='
  }

  predicate EventHandler(s: string) {
    var l := Lower(s);
    exists i, j, m | 0 <= i <= j <= m < |s| :: EventHandlerAt(l, i, j, m)
  }

  /** The three tests on a string; the regular expressions have the `i` flag, and for
      patterns written in ASCII their case folding is ASCII lower-casing. */
  predicate Scripted(s: string) {
    ScriptTag(s) || ContainsIgnoringCase(s, "javascript:") || EventHandler(s)
  }

  /** `checkForScripts`: strings are tested, arrays and objects are searched through
      their elements and values, and every other value is harmless. */
  predicate CheckForScripts(j: Json)
    decreases j
  {
    match j
    case JString(s) => Scripted(s)
    case JArray(items) => exists k | 0 <= k < |items| :: CheckForScripts(items[k])
    case JObject(fields) => exists k | 0 <= k < |fields| :: CheckForScripts(fields[k].1)
    case _ => false
  }

  /** `s` is a string somewhere inside `j`, at any depth. */
  predicate HasLeaf(j: Json, s: string)
    decreases j
  {
    match j
    case JString(x) => x == s
    case JArray(items) => exists k | 0 <= k < |items| :: HasLeaf(items[k], s)
    case JObject(fields) => exists k | 0 <= k < |fields| :: HasLeaf(fields[k].1, s)
    case _ => false
  }

  /** An array is rejected exactly when one of its leaves fails the string test, once
      that holds for each of its elements. */
  lemma ArrayLeaves(items: seq<Json>)
    requires forall k :: 0 <= k < |items| ==>
      (CheckForScripts(items[k]) <==> exists s :: HasLeaf(items[k], s) && Scripted(s))
    ensures CheckForScripts(JArray(items)) <==> exists s :: HasLeaf(JArray(items), s) && Scripted(s)
  {
    var j := JArray(items);
    if CheckForScripts(j) {
      var k :| 0 <= k < |items| && CheckForScripts(items[k]);
      var s :| HasLeaf(items[k], s) && Scripted(s);
      assert HasLeaf(j, s);
    }
    if exists s :: HasLeaf(j, s) && Scripted(s) {
      var s :| HasLeaf(j, s) && Scripted(s);
      var k :| 0 <= k < |items| && HasLeaf(items[k], s);
      assert CheckForScripts(items[k]);
    }
  }

  /** The same for an object and the values of its fields. */
  lemma ObjectLeaves(fields: seq<(string, Json)>)
    requires forall k :: 0 <= k < |fields| ==>
      (CheckForScripts(fields[k].1) <==> exists s :: HasLeaf(fields[k].1, s) && Scripted(s))
    ensures CheckForScripts(JObject(fields)) <==> exists s :: HasLeaf(JObject(fields), s) && Scripted(s)
  {
    var j := JObject(fields);
    if CheckForScripts(j) {
      var k :| 0 <= k < |fields| && CheckForScripts(fields[k].1);
      var s :| HasLeaf(fields[k].1, s) && Scripted(s);
      assert HasLeaf(j, s);
    }
    if exists s :: HasLeaf(j, s) && Scripted(s) {
      var s :| HasLeaf(j, s) && Scripted(s);
      var k :| 0 <= k < |fields| && HasLeaf(fields[k].1, s);
      assert CheckForScripts(fields[k].1);
    }
  }

  /** A value is rejected exactly when one of the strings nested in it, at any depth,
      fails the string test; numbers, booleans and null never cause a rejection. */
  lemma {:induction false} ScriptsIffScriptedLeaf(j: Json)
    ensures CheckForScripts(j) <==> exists s :: HasLeaf(j, s) && Scripted(s)
    decreases j
  {
    match j
    case JString(x) =>
      assert HasLeaf(j, x);
    case JArray(items) =>
      forall k | 0 <= k < |items| ensures CheckForScripts(items[k]) <==> exists s :: HasLeaf(items[k], s) && Scripted(s) {
        ScriptsIffScriptedLeaf(items[k]);
      }
      ArrayLeaves(items);
    case JObject(fields) =>
      forall k | 0 <= k < |fields| ensures CheckForScripts(fields[k].1) <==> exists s :: HasLeaf(fields[k].1, s) && Scripted(s) {
        ScriptsIffScriptedLeaf(fields[k].1);
      }
      ObjectLeaves(fields);
    case _ =>
  }

  /** `javascript:` is caught in any mixture of cases, wherever it sits in the string. */
  lemma MixedCaseSchemeCaught(before: string, after: string)
    ensures Scripted(before + "JavaScript:" + after)
  {
    assert Lower("JavaScript:") == Lower("javascript:");
    InsideIgnoringCase(before, "JavaScript:", after, "javascript:");
  }

  const BodyRejected := "Script tags and JavaScript code are not allowed"
  const QueryRejected := "Script tags and JavaScript code are not allowed in query parameters"

  /** The body is checked before the query. */
  function ValidateNoScriptTags(body: Json, query: Json): (v: Verdict)
    ensures v.Next? <==> !CheckForScripts(body) && !CheckForScripts(query)
    ensures CheckForScripts(body) ==> v == Respond(400, BodyRejected)
    ensures !CheckForScripts(body) && CheckForScripts(query) ==> v == Respond(400, QueryRejected)
  {
    if CheckForScripts(body) then Respond(400, BodyRejected)
    else if CheckForScripts(query) then Respond(400, QueryRejected)
    else Next
  }

  // ----- validateFileUploadSecurity -----

  /** The part of a multer file these checks read; no buffer with disk storage. */
  datatype UploadedFile = UploadedFile(originalname: string, buffer: Option<seq<Byte>>)

  const PeSignature: seq<Byte> := [0x4D, 0x5A]
  const ElfSignature: seq<Byte> := [0x7F, 0x45, 0x4C, 0x46]
  const JavaClassSignature: seq<Byte> := [0xCA, 0xFE, 0xBA, 0xBE]
  const MachOSignature: seq<Byte> := [0xFE, 0xED, 0xFA, 0xCE]
  const Signatures: seq<seq<Byte>> := [PeSignature, ElfSignature, JavaClassSignature, MachOSignature]

  /** `signature.every((byte, index) => magicBytes[index] === byte)`: a byte past the
      end of a short buffer is `undefined` and equals nothing. */
  predicate MatchesSignature(buffer: seq<Byte>, signature: seq<Byte>) {
    |signature| <= |buffer| && buffer[..|signature|] == signature
  }

  predicate IsExecutable(buffer: seq<Byte>) {
    exists k | 0 <= k < |Signatures| :: MatchesSignature(buffer, Signatures[k])
  }

  /** The signatures byte by byte: a buffer is executable exactly when it starts with
      one of them, so a buffer shorter than two bytes never is. */
  lemma ExecutableBytes(b: seq<Byte>)
    ensures IsExecutable(b) <==>
      || (|b| >= 2 && b[0] == 0x4D && b[1] == 0x5A)
      || (|b| >= 4 && b[0] == 0x7F && b[1] == 0x45 && b[2] == 0x4C && b[3] == 0x46)
      || (|b| >= 4 && b[0] == 0xCA && b[1] == 0xFE && b[2] == 0xBA && b[3] == 0xBE)
      || (|b| >= 4 && b[0] == 0xFE && b[1] == 0xED && b[2] == 0xFA && b[3] == 0xCE)
    ensures |b| < 2 ==> !IsExecutable(b)
  {
    assert Signatures[0] == PeSignature && Signatures[1] == ElfSignature;
    assert Signatures[2] == JavaClassSignature && Signatures[3] == MachOSignature;
    if |b| >= 2 && b[0] == 0x4D && b[1] == 0x5A {
      assert b[..2] == PeSignature;
      assert MatchesSignature(b, Signatures[0]);
    }
    if |b| >= 4 && b[0] == 0x7F && b[1] == 0x45 && b[2] == 0x4C && b[3] == 0x46 {
      assert b[..4] == ElfSignature;
      assert MatchesSignature(b, Signatures[1]);
    }
    if |b| >= 4 && b[0] == 0xCA && b[1] == 0xFE && b[2] == 0xBA && b[3] == 0xBE {
      assert b[..4] == JavaClassSignature;
      assert MatchesSignature(b, Signatures[2]);
    }
    if |b| >= 4 && b[0] == 0xFE && b[1] == 0xED && b[2] == 0xFA && b[3] == 0xCE {
      assert b[..4] == MachOSignature;
      assert MatchesSignature(b, Signatures[3]);
    }
  }

  const MaxNameLength := 255

  /** The checks on one file, in order; the first that fails answers. */
  function FileVerdict(f: UploadedFile): Verdict {
    if '\0' in f.originalname then Respond(400, "Invalid file name detected")
    else if Contains(f.originalname, "../") || Contains(f.originalname, "..\\") then Respond(400, "Path traversal attempt detected")
    else if |f.originalname| > MaxNameLength then Respond(400, "File name too long")
    else if f.buffer.Some? && IsExecutable(f.buffer.value) then Respond(400, "Executable files are not allowed")
    else Next
  }

  /** A NUL is reported as such even in a name that is also too long or traverses. */
  lemma NulCheckedFirst(f: UploadedFile)
    requires '\0' in f.originalname
    ensures FileVerdict(f) == Respond(400, "Invalid file name detected")
  {
  }

  /** The length bound is inclusive: a clean 255-character name passes, and one more
      character is refused. */
  lemma NameLengthBound(name: string, c: char)
    requires |name| == MaxNameLength && '\0' !in name + [c]
    requires !Contains(name + [c], "../") && !Contains(name + [c], "..\\")
    ensures FileVerdict(UploadedFile(name, None)) == Next
    ensures FileVerdict(UploadedFile(name + [c], None)) == Respond(400, "File name too long")
  {
    if Contains(name, "../") {
      ContainsExtends(name, [c], "../");
    }
    if Contains(name, "..\\") {
      ContainsExtends(name, [c], "..\\");
    }
  }

  lemma ContainsExtends(s: string, more: string, sub: string)
    requires Contains(s, sub)
    ensures Contains(s + more, sub)
  {
    var i :| 0 <= i <= |s| - |sub| && OccursAt(s, sub, i);
    assert (s + more)[i..i + |sub|] == s[i..i + |sub|];
    assert OccursAt(s + more, sub, i);
  }

  /** The file list is checked in order, `null` entries are skipped, and the first file
      that fails a check decides the answer; no files at all passes. */
  method ValidateFileUploadSecurity(files: seq<Option<UploadedFile>>) returns (v: Verdict)
    ensures v.Next? <==> forall k :: 0 <= k < |files| && files[k].Some? ==> FileVerdict(files[k].value).Next?
    ensures v.Respond? ==> exists k :: 0 <= k < |files| && files[k].Some? && FileVerdict(files[k].value) == v &&
                             forall e :: 0 <= e < k && files[e].Some? ==> FileVerdict(files[e].value).Next?
  {
    var i := 0;
    while i < |files|
      invariant 0 <= i <= |files|
      invariant forall e :: 0 <= e < i && files[e].Some? ==> FileVerdict(files[e].value).Next?
    {
      if files[i].Some? {
        var verdict := FileVerdict(files[i].value);
        if verdict.Respond? {
          return verdict;
        }
      }
      i := i + 1;
    }
    return Next;
  }
}
