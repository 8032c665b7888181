/** Shared vocabulary for the whole model: optional values, the JavaScript string
    operations the handlers rely on (prefix and substring tests, ASCII case mapping,
    `split`, `parseInt`, number-to-string), JSON values as Express parses them, and the
    pagination arithmetic every list route repeats.

    Strings are sequences of Unicode scalar values; JavaScript counts UTF-16 code units,
    which agrees for every character of the Basic Multilingual Plane. */
module Common {

  datatype Option<+T> = None | Some(value: T)

  /** An empty string is falsy in JavaScript: `x || null` turns it into null. */
  function NonEmpty(s: Option<string>): (r: Option<string>)
    ensures r.Some? <==> s.Some? && s.value != []
    ensures r.Some? ==> r.value == s.value
  {
    if s.Some? && s.value != [] then s else None
  }

  /** `s || d` for an optional string: the value when it is present and non-empty. */
  function OrDefault(s: Option<string>, d: string): string {
    if s.Some? && s.value != [] then s.value else d
  }

  /** A Prisma update field: `undefined` leaves the column as it is. */
  function Pick<T>(v: Option<T>, current: T): T {
    if v.Some? then v.value else current
  }

  /** What a middleware does: hand the request on with `next()`, answer it itself
      with a status and a message, or throw, which Express hands to the error handler. */
  datatype Verdict = Next | Respond(status: nat, message: string) | Throws(message: string)

  /** A byte of an uploaded file's buffer. */
  type Byte = b: int | 0 <= b < 256

  // ----- prefix and substring tests -----

  /** `s.startsWith(prefix)` */
  predicate StartsWith(s: string, prefix: string) {
    |prefix| <= |s| && s[..|prefix|] == prefix
  }

  predicate OccursAt(s: string, sub: string, i: int) {
    0 <= i && i + |sub| <= |s| && s[i..i + |sub|] == sub
  }

  /** `s.includes(sub)` */
  predicate Contains(s: string, sub: string) {
    exists i | 0 <= i <= |s| - |sub| :: OccursAt(s, sub, i)
  }

  /** `s.lastIndexOf(c)`: the position of the last `c`, or -1 when there is none. */
  function LastIndexOf(s: string, c: char): (i: int)
    ensures -1 <= i < |s|
    ensures i >= 0 ==> s[i] == c && forall k :: i < k < |s| ==> s[k] != c
    ensures i == -1 <==> c !in s
  {
    if s == [] then -1
    else if s[|s| - 1] == c then |s| - 1
    else LastIndexOf(s[..|s| - 1], c)
  }

  /** `s.substring(start)`: a negative start counts as 0. */
  function SubstringFrom(s: string, start: int): (r: string)
    ensures start <= 0 ==> r == s
    ensures 0 <= start <= |s| ==> r == s[start..]
  {
    if start <= 0 then s else if start >= |s| then [] else s[start..]
  }

  function Reverse<T>(s: seq<T>): (r: seq<T>)
    ensures |r| == |s|
    ensures forall k :: 0 <= k < |s| ==> r[k] == s[|s| - 1 - k]
  {
    if s == [] then [] else [s[|s| - 1]] + Reverse(s[..|s| - 1])
  }

  /** `take: n` on a list: at most its first n entries. */
  function Take<T>(s: seq<T>, n: nat): (r: seq<T>)
    ensures |r| == if n < |s| then n else |s|
    ensures r == s[..|r|]
  {
    if n < |s| then s[..n] else s
  }

  /** Setting a key adds one entry when the key is new and none when it is present. */
  lemma MapSetSize<K, V>(m: map<K, V>, k: K, v: V)
    ensures |m[k := v]| == if k in m then |m| else |m| + 1
  {
    if k in m {
      assert m[k := v].Keys == m.Keys;
    } else {
      assert m[k := v].Keys == m.Keys + {k};
    }
  }

  /** The first n entries of a reversed list are its last n, newest first. */
  lemma TakeOfReverse<T>(s: seq<T>, n: nat)
    ensures |Take(Reverse(s), n)| == if n < |s| then n else |s|
    ensures forall k :: 0 <= k < |Take(Reverse(s), n)| ==> Take(Reverse(s), n)[k] == s[|s| - 1 - k]
  {
    var r := Take(Reverse(s), n);
    assert forall k :: 0 <= k < |r| ==> r[k] == Reverse(s)[k];
  }

  // ----- ASCII case mapping (String.prototype.toLowerCase / toUpperCase on ASCII) -----

  function LowerChar(c: char): char {
    if 'A' <= c <= 'Z' then (c as int + 32) as char else c
  }

  function UpperChar(c: char): char {
    if 'a' <= c <= 'z' then (c as int - 32) as char else c
  }

  function Lower(s: string): string {
    seq(|s|, i requires 0 <= i < |s| => LowerChar(s[i]))
  }

  lemma LowerIdempotent(s: string)
    ensures Lower(Lower(s)) == Lower(s)
  {
  }

  /** A case-insensitive `includes`, as Prisma's `contains` with `mode: 'insensitive'`
      and a regular expression with the `i` flag test it. */
  predicate ContainsIgnoringCase(s: string, sub: string) {
    Contains(Lower(s), Lower(sub))
  }

  /** A word inside a string is found whatever the case of either. */
  lemma InsideIgnoringCase(before: string, w: string, after: string, sub: string)
    requires Lower(w) == Lower(sub)
    ensures ContainsIgnoringCase(before + w + after, sub)
  {
    var s := before + w + after;
    var l := Lower(s);
    forall k | 0 <= k < |w| ensures l[|before|..|before| + |w|][k] == Lower(w)[k] {
      assert s[|before| + k] == w[k];
    }
    assert OccursAt(l, Lower(sub), |before|);
  }

  // ----- character classes -----

  predicate IsDigit(c: char) {
    '0' <= c <= '9'
  }

  /** The characters `\s` matches in a JavaScript regular expression, which are also the
      ones `parseInt` skips before the number. */
  predicate IsJsSpace(c: char) {
    var n := c as int;
    n == 9 || n == 10 || n == 11 || n == 12 || n == 13 || n == 32 || n == 0xA0 ||
    n == 0x1680 || (0x2000 <= n <= 0x200A) || n == 0x2028 || n == 0x2029 ||
    n == 0x202F || n == 0x205F || n == 0x3000 || n == 0xFEFF
  }

  // ----- String.prototype.split with a one-character separator -----

  /** `s.split(sep)`: the pieces between separators, empty ones included. */
  function Split(s: string, sep: char): (parts: seq<string>)
    ensures |parts| >= 1
    ensures forall k :: 0 <= k < |parts| ==> sep !in parts[k]
    decreases |s|
  {
    if s == [] then [[]]
    else
      var rest := Split(s[1..], sep);
      if s[0] == sep then [[]] + rest
      else [[s[0]] + rest[0]] + rest[1..]
  }

  /** `parts.join(sep)` */
  function Join(parts: seq<string>, sep: char): string
    decreases |parts|
  {
    if |parts| == 0 then []
    else if |parts| == 1 then parts[0]
    else parts[0] + [sep] + Join(parts[1..], sep)
  }

  /** Splitting and joining again gives back the original string: no character is lost
      and every separator sits between two pieces. */
  lemma {:induction false} JoinSplit(s: string, sep: char)
    ensures Join(Split(s, sep), sep) == s
    decreases |s|
  {
    if s != [] {
      var rest := Split(s[1..], sep);
      JoinSplit(s[1..], sep);
      if s[0] == sep {
        assert Split(s, sep) == [[]] + rest;
        assert ([[]] + rest)[1..] == rest;
      } else {
        var parts := [[s[0]] + rest[0]] + rest[1..];
        assert Split(s, sep) == parts;
        if |rest| == 1 {
          assert Join(parts, sep) == [s[0]] + rest[0];
        } else {
          assert parts[1..] == rest[1..];
          assert Join(rest, sep) == rest[0] + [sep] + Join(rest[1..], sep);
          assert Join(parts, sep) == [s[0]] + rest[0] + [sep] + Join(rest[1..], sep);
        }
      }
    }
  }

  // ----- Number.prototype.toString and parseInt -----

  function DigitChar(d: nat): char
    requires d < 10
  {
    ('0' as int + d) as char
  }

  /** The decimal representation of a non-negative integer, without leading zeros. */
  function NatToString(n: nat): (r: string)
    ensures |r| >= 1
    ensures forall i :: 0 <= i < |r| ==> IsDigit(r[i])
    ensures n >= 10 ==> r[0] != '0'
  {
    if n < 10 then [DigitChar(n)] else NatToString(n / 10) + [DigitChar(n % 10)]
  }

  /** `Math.max`/`Math.min` results and page numbers render through `toString`. */
  function IntToString(n: int): string {
    if n >= 0 then NatToString(n) else ['-'] + NatToString(-n)
  }

  function DigitValue(c: char, radix: nat): Option<nat> {
    if '0' <= c <= '9' && (c as int) - ('0' as int) < radix then Some((c as int) - ('0' as int))
    else if radix == 16 && 'a' <= c <= 'f' then Some((c as int) - ('a' as int) + 10)
    else if radix == 16 && 'A' <= c <= 'F' then Some((c as int) - ('A' as int) + 10)
    else None
  }

  /** The longest prefix of `s` made of digits of the radix. */
  function DigitPrefix(s: string, radix: nat): (ds: string)
    ensures |ds| <= |s| && ds == s[..|ds|]
    ensures forall i :: 0 <= i < |ds| ==> DigitValue(ds[i], radix).Some?
    ensures |ds| < |s| ==> DigitValue(s[|ds|], radix).None?
  {
    if s == [] || DigitValue(s[0], radix).None? then [] else [s[0]] + DigitPrefix(s[1..], radix)
  }

  /** The value of a digit string, read most significant digit first. */
  function DigitsValue(ds: string, radix: nat): nat
    requires forall i :: 0 <= i < |ds| ==> DigitValue(ds[i], radix).Some?
  {
    if ds == [] then 0
    else DigitsValue(ds[..|ds| - 1], radix) * radix + DigitValue(ds[|ds| - 1], radix).value
  }

  function DropSpaces(s: string): string {
    if s != [] && IsJsSpace(s[0]) then DropSpaces(s[1..]) else s
  }

  /** `parseInt(s)` without a radix: leading white space, an optional sign, an optional
      `0x`/`0X` that switches to hexadecimal, then the longest run of digits; None stands
      for NaN (no digit at all). The magnitude is exact; JavaScript rounds beyond 2^53. */
  function ParseInt(s: string): Option<int> {
    var t := DropSpaces(s);
    var negative := t != [] && t[0] == '-';
    var u := if t != [] && (t[0] == '-' || t[0] == '+') then t[1..] else t;
    var hex := |u| >= 2 && u[0] == '0' && (u[1] == 'x' || u[1] == 'X');
    var radix := if hex then 16 else 10;
    var ds := DigitPrefix(if hex then u[2..] else u, radix);
    var magnitude: int := if ds == [] then 0 else DigitsValue(ds, radix);
    if ds == [] then None
    else if negative then Some(-magnitude)
    else Some(magnitude)
  }

  lemma {:induction false} DigitsValueOfNatToString(n: nat)
    ensures forall i :: 0 <= i < |NatToString(n)| ==> DigitValue(NatToString(n)[i], 10).Some?
    ensures DigitsValue(NatToString(n), 10) == n
  {
    var r := NatToString(n);
    if n >= 10 {
      DigitsValueOfNatToString(n / 10);
      assert r[..|r| - 1] == NatToString(n / 10);
    }
  }

  /** What `toString` writes, `parseInt` reads back: the round trip the page buttons of
      the case list depend on. */
  lemma ParseIntOfNatToString(n: nat)
    ensures ParseInt(NatToString(n)) == Some(n)
  {
    var r := NatToString(n);
    DigitsValueOfNatToString(n);
    assert DropSpaces(r) == r;
    assert r[0] != '-' && r[0] != '+';
    DigitPrefixOfDigits(r, 10);
  }

  lemma {:induction false} DigitPrefixOfDigits(s: string, radix: nat)
    requires forall i :: 0 <= i < |s| ==> DigitValue(s[i], radix).Some?
    ensures DigitPrefix(s, radix) == s
    decreases |s|
  {
    if s != [] {
      DigitPrefixOfDigits(s[1..], radix);
    }
  }

  // ----- JSON values as Express hands them to a handler -----

  /** A parsed request body or query: objects keep their own keys in enumeration order. */
  datatype Json =
    | JNull
    | JBool(b: bool)
    | JNumber(n: int)
    | JString(s: string)
    | JArray(items: seq<Json>)
    | JObject(fields: seq<(string, Json)>)

  // ----- pagination arithmetic (the same two lines in every list route) -----

  /** `(parseInt(page) - 1) * parseInt(limit)`: the rows a page skips. */
  function Skip(page: int, limit: int): int {
    (page - 1) * limit
  }

  /** A query value as `parseInt(value as string)` reads it, or the number the route's
      destructuring default gives when the query has none. */
  function QueryInt(raw: Option<string>, default: int): Option<int> {
    if raw.None? then Some(default) else ParseInt(raw.value)
  }

  /** The page a listing answers with: `page` and `limit` as `parseInt` reads them. */
  datatype PageWindow = PageWindow(page: int, limit: int)

  /** `skip: (parseInt(page) - 1) * parseInt(limit)` and `take: parseInt(limit)`, with
      `page = 1` and the route's own `limit` default. Prisma refuses the query (None)
      when either is NaN or the skip is negative; any other skip and take run. */
  function Paging(page: Option<string>, limit: Option<string>, defaultLimit: int): (w: Option<PageWindow>)
    ensures page.Some? && ParseInt(page.value).None? ==> w.None?
    ensures limit.Some? && ParseInt(limit.value).None? ==> w.None?
    ensures w.Some? ==> Skip(w.value.page, w.value.limit) >= 0
    ensures page.None? && limit.None? && defaultLimit >= 0 ==> w == Some(PageWindow(1, defaultLimit))
  {
    match (QueryInt(page, 1), QueryInt(limit, defaultLimit))
    case (Some(p), Some(l)) => if Skip(p, l) < 0 then None else Some(PageWindow(p, l))
    case _ => None
  }

  lemma {:induction false} ProductNonNegative(a: nat, b: nat)
    ensures a * b >= 0
  {
    if a > 0 {
      ProductNonNegative(a - 1, b);
      assert a * b == (a - 1) * b + b;
    }
  }

  /** Query values that `parseInt` reads as a page from 1 on and a size from 0 on give
      that page. */
  lemma PagingOfNumbers(sp: string, sl: Option<string>, p: nat, l: nat, defaultLimit: int)
    requires p >= 1 && ParseInt(sp) == Some(p)
    requires QueryInt(sl, defaultLimit) == Some(l)
    ensures Paging(Some(sp), sl, defaultLimit) == Some(PageWindow(p, l))
  {
    ProductNonNegative(p - 1, l);
  }

  /** Numbers written into the query are read back as they are, and a page number alone
      comes with the route's size. */
  lemma PagingReadsNumbers(p: nat, l: nat, defaultLimit: nat)
    requires p >= 1
    ensures Paging(Some(NatToString(p)), Some(NatToString(l)), defaultLimit) == Some(PageWindow(p, l))
    ensures Paging(Some(NatToString(p)), None, defaultLimit) == Some(PageWindow(p, defaultLimit))
  {
    ParseIntOfNatToString(p);
    ParseIntOfNatToString(l);
    PagingOfNumbers(NatToString(p), Some(NatToString(l)), p, l, defaultLimit);
    PagingOfNumbers(NatToString(p), None, p, defaultLimit, defaultLimit);
  }

  /** Page 0 of a positive size, given or by default, skips backwards and is refused. */
  lemma PageZeroRefused(l: nat, defaultLimit: int)
    ensures l > 0 ==> Paging(Some(NatToString(0)), Some(NatToString(l)), defaultLimit).None?
    ensures defaultLimit > 0 ==> Paging(Some(NatToString(0)), None, defaultLimit).None?
  {
    ParseIntOfNatToString(0);
    ParseIntOfNatToString(l);
    assert QueryInt(Some(NatToString(0)), 1) == Some(0);
    assert QueryInt(Some(NatToString(l)), defaultLimit) == Some(l);
  }

  /** `Math.ceil(total / limit)` as it reaches the client: JSON has no Infinity or NaN,
      so a zero limit serialises as null (None). For a positive limit it is the least
      number of pages of `limit` rows that hold `total` rows. */
  function PageCount(total: nat, limit: int): (r: Option<int>)
    ensures r.None? <==> limit == 0
    ensures limit > 0 ==> r.Some? && r.value >= 0 && (r.value - 1) * limit < total <= r.value * limit
  {
    if limit > 0 then
      var q := (total + limit - 1) / limit;
      assert q * limit <= total + limit - 1 < q * limit + limit;
      Some(q)
    else if limit < 0 then Some(-(total / -limit))
    else None
  }

  /** Every page from the first to the last skips fewer rows than there are, and the
      page after the last skips at least all of them. */
  lemma PagesCoverTotal(total: nat, limit: int, page: int)
    requires limit > 0 && total > 0
    requires 1 <= page <= PageCount(total, limit).value
    ensures 0 <= Skip(page, limit) < total
  {
    var pages := PageCount(total, limit).value;
    assert Skip(page, limit) <= Skip(pages, limit) by {
      assert (page - 1) * limit <= (pages - 1) * limit;
    }
  }

  /** The pager's "Showing `(page - 1) * limit + 1` to `Math.min(page * limit, total)`". */
  function ShowingFrom(page: int, limit: int): int {
    (page - 1) * limit + 1
  }

  function ShowingTo(page: int, limit: int, total: nat): int {
    if page * limit < total then page * limit else total
  }

  /** On any page of a non-empty list, the range shown lies within the rows, is not
      empty and holds at most `limit` rows. */
  lemma ShownRangeWithinRows(page: int, limit: int, total: nat)
    requires limit > 0 && total > 0
    requires 1 <= page <= PageCount(total, limit).value
    ensures 1 <= ShowingFrom(page, limit) <= ShowingTo(page, limit, total) <= total
    ensures ShowingTo(page, limit, total) - ShowingFrom(page, limit) + 1 <= limit
  {
    PagesCoverTotal(total, limit, page);
    assert (page - 1) * limit + limit == page * limit;
  }

  // ----- String.prototype.replace with a string pattern -----

  /** `s.replace('_', ' ')` with a string pattern: only the first underscore. */
  function ReplaceFirstUnderscore(s: string): string
    decreases |s|
  {
    if s == [] then []
    else if s[0] == '_' then [' '] + s[1..]
    else [s[0]] + ReplaceFirstUnderscore(s[1..])
  }

  /** The replacement keeps the length, and a string without an underscore is left as
      it is. */
  lemma {:induction false} ReplaceKeepsOthers(s: string)
    ensures |ReplaceFirstUnderscore(s)| == |s|
    ensures (forall k :: 0 <= k < |s| ==> s[k] != '_') ==> ReplaceFirstUnderscore(s) == s
    decreases |s|
  {
    if s != [] && s[0] != '_' {
      ReplaceKeepsOthers(s[1..]);
      if forall k :: 0 <= k < |s| ==> s[k] != '_' {
        var t := s[1..];
        forall k | 0 <= k < |t| ensures t[k] != '_' {
          assert t[k] == s[k + 1];
        }
      }
    }
  }

  /** Only the first underscore becomes a space: the text before it and after it stays. */
  lemma {:induction false} ReplaceFirstOnly(s: string, i: nat)
    requires i < |s| && s[i] == '_'
    requires forall k :: 0 <= k < i ==> s[k] != '_'
    ensures ReplaceFirstUnderscore(s) == s[..i] + " " + s[i + 1..]
    decreases i
  {
    if i > 0 {
      var t := s[1..];
      assert t[i - 1] == '_';
      forall k | 0 <= k < i - 1 ensures t[k] != '_' {
        assert t[k] == s[k + 1];
      }
      ReplaceFirstOnly(t, i - 1);
      assert t[..i - 1] == s[1..i] && t[i..] == s[i + 1..];
      assert [s[0]] + s[1..i] == s[..i];
    }
  }
}
