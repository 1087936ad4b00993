/** The string operations of Go's standard library that the model-management
    code relies on: `strings.ToLower/HasPrefix/HasSuffix/Contains/TrimPrefix/
    TrimSpace/Split`, `filepath.Base/Join`, `url.PathUnescape`, the `%d` verb of
    `fmt.Sscanf`, and SQLite's BINARY collation used by `ORDER BY name`.
    Strings are sequences of bytes-as-characters, as Go strings are. */
module Text {
  import opened Wrappers

  // ---------------------------------------------------------------------------
  // Case folding and substring tests

  /** ASCII case folding; Go's `unicode.ToLower` also folds non-ASCII letters. */
  function LowerChar(c: char): char {
    if 'A' <= c <= 'Z' then (c as int + 32) as char else c
  }

  function ToLower(s: string): (r: string)
    ensures |r| == |s|
    ensures forall i :: 0 <= i < |s| ==> r[i] == LowerChar(s[i])
  {
    if s == [] then [] else [LowerChar(s[0])] + ToLower(s[1..])
  }

  predicate HasPrefix(s: string, prefix: string) {
    |prefix| <= |s| && s[..|prefix|] == prefix
  }

  predicate HasSuffix(s: string, suffix: string) {
    |suffix| <= |s| && s[|s| - |suffix|..] == suffix
  }

  /** `strings.Contains`: some position of `s` starts with `sub`. */
  predicate Contains(s: string, sub: string)
    decreases |s|
  {
    HasPrefix(s, sub) || (|s| > 0 && Contains(s[1..], sub))
  }

  function TrimPrefix(s: string, prefix: string): (r: string)
    ensures HasPrefix(s, prefix) ==> prefix + r == s
    ensures !HasPrefix(s, prefix) ==> r == s
  {
    if HasPrefix(s, prefix) then s[|prefix|..] else s
  }

  /** The ASCII white space of `unicode.IsSpace`; U+0085 and U+00A0 are left out. */
  predicate IsSpace(c: char) {
    c == ' ' || c == '\t' || c == '\n' || c == '\r' || c == '\U{000B}' || c == '\U{000C}'
  }

  function TrimLeftSpace(s: string): (r: string)
    ensures r == [] || !IsSpace(r[0])
    ensures |r| <= |s|
  {
    if s != [] && IsSpace(s[0]) then TrimLeftSpace(s[1..]) else s
  }

  function TrimRightSpace(s: string): (r: string)
    ensures r == [] || !IsSpace(r[|r| - 1])
    ensures |r| <= |s| && forall i :: 0 <= i < |r| ==> r[i] == s[i]
  {
    if s != [] && IsSpace(s[|s| - 1]) then TrimRightSpace(s[..|s| - 1]) else s
  }

  /** `strings.TrimSpace`. */
  function TrimSpace(s: string): (r: string)
    ensures r == [] || (!IsSpace(r[0]) && !IsSpace(r[|r| - 1]))
  {
    var t := TrimRightSpace(TrimLeftSpace(s));
    assert t != [] ==> TrimLeftSpace(s)[0] == t[0];
    t
  }

  // ---------------------------------------------------------------------------
  // strings.Split on a one-character separator, and its inverse

  function IndexOf(s: string, c: char): (i: nat)
    requires c in s
    ensures i < |s| && s[i] == c && c !in s[..i]
  {
    if s[0] == c then 0 else 1 + IndexOf(s[1..], c)
  }

  /** `strings.Split(s, string(sep))`: never empty; no part holds the separator. */
  function Split(s: string, sep: char): (parts: seq<string>)
    ensures |parts| >= 1
    ensures forall i :: 0 <= i < |parts| ==> sep !in parts[i]
    decreases |s|
  {
    if sep !in s then [s]
    else
      var i := IndexOf(s, sep);
      [s[..i]] + Split(s[i + 1..], sep)
  }

  /** `strings.Join(parts, string(sep))`. */
  function JoinWith(parts: seq<string>, sep: char): string
  {
    if |parts| == 0 then ""
    else if |parts| == 1 then parts[0]
    else parts[0] + [sep] + JoinWith(parts[1..], sep)
  }

  /** Joining the parts of a split gives back the original string. */
  lemma {:induction false} SplitThenJoin(s: string, sep: char)
    ensures JoinWith(Split(s, sep), sep) == s
    decreases |s|
  {
    if sep in s {
      var i := IndexOf(s, sep);
      SplitThenJoin(s[i + 1..], sep);
      assert s == s[..i] + [sep] + s[i + 1..];
    }
  }

  /** The first separator of `a + [c] + b` is the one after `a` when `a` holds
      none. */
  lemma {:induction false} IndexOfAfter(a: string, c: char, b: string)
    requires c !in a
    ensures c in a + [c] + b
    ensures IndexOf(a + [c] + b, c) == |a|
    decreases |a|
  {
    var s := a + [c] + b;
    assert s[|a|] == c;
    if a != [] {
      assert s[1..] == a[1..] + [c] + b;
      IndexOfAfter(a[1..], c, b);
    }
  }

  /** Splitting a join of separator-free parts gives back the parts. */
  lemma {:induction false} JoinThenSplit(parts: seq<string>, sep: char)
    requires |parts| >= 1
    requires forall i :: 0 <= i < |parts| ==> sep !in parts[i]
    ensures Split(JoinWith(parts, sep), sep) == parts
    decreases |parts|
  {
    if |parts| > 1 {
      var rest := JoinWith(parts[1..], sep);
      var s := parts[0] + [sep] + rest;
      assert JoinWith(parts, sep) == s;
      assert sep !in parts[0];
      IndexOfAfter(parts[0], sep, rest);
      assert s[..|parts[0]|] == parts[0];
      assert s[|parts[0]| + 1..] == rest;
      JoinThenSplit(parts[1..], sep);
      assert Split(s, sep) == [parts[0]] + parts[1..];
    }
  }

  // ---------------------------------------------------------------------------
  // filepath.Base and filepath.Join (Unix separator)

  function TrimTrailingSlashes(p: string): (r: string)
    ensures r == [] || r[|r| - 1] != '/'
    ensures HasPrefix(p, r)
  {
    if p != [] && p[|p| - 1] == '/' then TrimTrailingSlashes(p[..|p| - 1]) else p
  }

  /** What follows the last '/' of `p`, or all of `p` when it holds none. */
  function LastSegment(p: string): (r: string)
    ensures '/' !in r
    ensures HasSuffix(p, r)
    ensures p != [] && p[|p| - 1] != '/' ==> r != []
    decreases |p|
  {
    if '/' !in p then p
    else
      var i := IndexOf(p, '/');
      var r := LastSegment(p[i + 1..]);
      assert p[i + 1..][|p[i + 1..]| - |r|..] == p[|p| - |r|..];
      r
  }

  /** `filepath.Base`: "." for the empty path, "/" for a path of slashes only,
      otherwise the last element after trailing slashes are dropped. */
  function Base(path: string): (r: string)
    ensures r != []
    ensures '/' in r ==> r == "/"
    ensures path != [] && '/' !in path ==> r == path
  {
    if path == [] then "."
    else
      var last := LastSegment(TrimTrailingSlashes(path));
      if last == [] then "/" else last
  }

  /** A file nested in directories keeps only its own name. */
  lemma {:induction false} BaseOfNested(dir: string, name: string)
    requires name != [] && '/' !in name
    ensures Base(dir + "/" + name) == name
    decreases |dir|
  {
    var p := dir + "/" + name;
    assert p[|p| - 1] == name[|name| - 1];
    assert TrimTrailingSlashes(p) == p;
    LastSegmentAfterSlash(dir, name);
  }

  lemma {:induction false} LastSegmentAfterSlash(dir: string, name: string)
    requires '/' !in name
    ensures LastSegment(dir + "/" + name) == name
    decreases |dir|
  {
    var p := dir + "/" + name;
    assert '/' in p by { assert p[|dir|] == '/'; }
    var i := IndexOf(p, '/');
    if i == |dir| {
      assert p[i + 1..] == name;
    } else {
      assert i < |dir|;
      assert dir[i] == '/';
      var d' := dir[i + 1..];
      assert p[i + 1..] == d' + "/" + name;
      LastSegmentAfterSlash(d', name);
    }
  }

  /** `filepath.Join` of two elements, empty elements ignored. `Clean`'s
      removal of ".", ".." and doubled slashes is not modelled. */
  function JoinPath(a: string, b: string): (r: string)
    ensures a != [] && b != [] ==> r == a + "/" + b
    ensures b == [] ==> r == a
    ensures a == [] ==> r == b
  {
    if b == [] then a else if a == [] then b else a + "/" + b
  }

  // ---------------------------------------------------------------------------
  // url.PathUnescape

  predicate IsHex(c: char) {
    '0' <= c <= '9' || 'a' <= c <= 'f' || 'A' <= c <= 'F'
  }

  function HexValue(c: char): (v: nat)
    requires IsHex(c)
    ensures v < 16
  {
    if '0' <= c <= '9' then c as int - '0' as int
    else if 'a' <= c <= 'f' then c as int - 'a' as int + 10
    else c as int - 'A' as int + 10
  }

  /** `url.PathUnescape`: every '%' must start a two-digit hex escape, which
      decodes to one byte; anything else is copied. `None` is an EscapeError. */
  function PathUnescape(s: string): (r: Option<string>)
    ensures r.Some? ==> |r.value| <= |s|
    decreases |s|
  {
    if s == [] then Some([])
    else if s[0] == '%' then
      if |s| < 3 || !IsHex(s[1]) || !IsHex(s[2]) then None
      else
        match PathUnescape(s[3..])
        case None => None
        case Some(rest) => Some([(HexValue(s[1]) * 16 + HexValue(s[2])) as char] + rest)
    else
      match PathUnescape(s[1..])
      case None => None
      case Some(rest) => Some([s[0]] + rest)
  }

  /** A path element without '%' is decoded to itself. */
  lemma {:induction false} UnescapePlain(s: string)
    requires '%' !in s
    ensures PathUnescape(s) == Some(s)
    decreases |s|
  {
    if s != [] {
      assert '%' !in s[1..];
      UnescapePlain(s[1..]);
      assert s == [s[0]] + s[1..];
    }
  }

  /** The escaping a client applies to a model id before placing it in one
      path element: '%' becomes "%25" and '/' becomes "%2F". */
  function EscapeSegment(s: string): (r: string)
    ensures '/' !in r
  {
    if s == [] then []
    else
      (if s[0] == '%' then "%25" else if s[0] == '/' then "%2F" else [s[0]]) + EscapeSegment(s[1..])
  }

  /** Unescaping undoes that escaping. */
  lemma {:induction false} UnescapeEscaped(s: string)
    ensures PathUnescape(EscapeSegment(s)) == Some(s)
    decreases |s|
  {
    if s != [] {
      UnescapeEscaped(s[1..]);
      var e := EscapeSegment(s);
      var tail := EscapeSegment(s[1..]);
      if s[0] == '%' {
        assert e == "%25" + tail;
        assert e[3..] == tail;
        assert (HexValue('2') * 16 + HexValue('5')) as char == '%';
      } else if s[0] == '/' {
        assert e == "%2F" + tail;
        assert e[3..] == tail;
        assert (HexValue('2') * 16 + HexValue('F')) as char == '/';
      } else {
        assert e == [s[0]] + tail;
        assert e[1..] == tail;
      }
      assert s == [s[0]] + s[1..];
    }
  }

  // ---------------------------------------------------------------------------
  // The %d verb of fmt.Sscanf

  predicate IsDigit(c: char) {
    '0' <= c <= '9'
  }

  predicate AllDigits(d: string) {
    forall i :: 0 <= i < |d| ==> IsDigit(d[i])
  }

  function DigitValue(c: char): nat
    requires IsDigit(c)
  {
    c as int - '0' as int
  }

  /** The value of a decimal digit string, most significant digit first. */
  function DigitsValue(d: string): nat
    requires AllDigits(d)
  {
    if d == [] then 0 else DigitsValue(d[..|d| - 1]) * 10 + DigitValue(d[|d| - 1])
  }

  /** Length of the run of digits that starts `s`. */
  function LeadingDigits(s: string): (n: nat)
    ensures n <= |s|
    ensures AllDigits(s[..n])
    ensures n == |s| || !IsDigit(s[n])
  {
    if s == [] || !IsDigit(s[0]) then 0
    else
      var n := 1 + LeadingDigits(s[1..]);
      assert s[..n] == [s[0]] + s[1..][..n - 1];
      n
  }

  /** The blanks `fmt`'s SkipSpace passes over; a newline is an error for Sscanf. */
  predicate IsBlank(c: char) {
    c == ' ' || c == '\t' || c == '\r' || c == '\U{000B}' || c == '\U{000C}'
  }

  function SkipBlanks(s: string): (r: string)
    ensures r == [] || !IsBlank(r[0])
    ensures |r| <= |s|
  {
    if s != [] && IsBlank(s[0]) then SkipBlanks(s[1..]) else s
  }

  const Int64Min: int := -0x8000_0000_0000_0000
  const Int64Max: int := 0x7FFF_FFFF_FFFF_FFFF

  /** `fmt.Sscanf(s, "%d", &x)` seen through its result: `Some(v)` when the scan
      stores v, `None` when it fails (no digits, a newline, or a value outside
      int64, which `strconv.ParseInt` rejects). Input after the number is ignored. */
  function ScanInt(s: string): (r: Option<int>)
    ensures r.Some? ==> Int64Min <= r.value <= Int64Max
  {
    var t := SkipBlanks(s);
    if t == [] || t[0] == '\n' then None
    else
      var negative := t[0] == '-';
      var body := if t[0] == '-' || t[0] == '+' then t[1..] else t;
      var n := LeadingDigits(body);
      if n == 0 then None
      else
        var magnitude := DigitsValue(body[..n]);
        var v: int := if negative then -(magnitude as int) else magnitude;
        if Int64Min <= v <= Int64Max then Some(v) else None
  }

  /** The decimal rendering of a natural number (`strconv.Itoa`). */
  function Decimal(n: nat): (d: string)
    ensures d != [] && AllDigits(d)
  {
    if n < 10 then ['0' + n as char] else Decimal(n / 10) + ['0' + (n % 10) as char]
  }

  lemma {:induction false} DecimalValue(n: nat)
    ensures DigitsValue(Decimal(n)) == n
  {
    if n >= 10 {
      var d := Decimal(n);
      assert d[..|d| - 1] == Decimal(n / 10);
      DecimalValue(n / 10);
    }
  }

  /** Scanning the decimal rendering of any int64-sized count reads it back. */
  lemma ScanDecimal(n: nat)
    requires n <= Int64Max
    ensures ScanInt(Decimal(n)) == Some(n)
  {
    var d := Decimal(n);
    assert !IsBlank(d[0]) && d[0] != '-' && d[0] != '+' && d[0] != '\n';
    assert SkipBlanks(d) == d;
    AllDigitsLead(d);
    assert d[..|d|] == d;
    DecimalValue(n);
  }

  lemma {:induction false} AllDigitsLead(d: string)
    requires AllDigits(d)
    ensures LeadingDigits(d) == |d|
  {
    if d != [] {
      AllDigitsLead(d[1..]);
    }
  }

  // ---------------------------------------------------------------------------
  // Byte-wise lexicographic order (SQLite's BINARY collation)

  /** `a` sorts strictly before `b`: a proper prefix, or smaller at the first
      position where they differ. */
  predicate StrLess(a: string, b: string)
    decreases |a|
  {
    |b| > 0 && (|a| == 0 || a[0] < b[0] || (a[0] == b[0] && StrLess(a[1..], b[1..])))
  }

  lemma {:induction false} StrLessIrreflexive(a: string)
    ensures !StrLess(a, a)
    decreases |a|
  {
    if |a| > 0 {
      StrLessIrreflexive(a[1..]);
    }
  }

  lemma {:induction false} StrLessTransitive(a: string, b: string, c: string)
    requires StrLess(a, b) && StrLess(b, c)
    ensures StrLess(a, c)
    decreases |a|
  {
    if |a| > 0 && a[0] == b[0] && b[0] == c[0] {
      StrLessTransitive(a[1..], b[1..], c[1..]);
    }
  }

  lemma {:induction false} StrLessTotal(a: string, b: string)
    requires a != b
    ensures StrLess(a, b) || StrLess(b, a)
    decreases |a|
  {
    if |a| > 0 && |b| > 0 && a[0] == b[0] {
      assert a == [a[0]] + a[1..] && b == [b[0]] + b[1..];
      StrLessTotal(a[1..], b[1..]);
    }
  }

  /** `m` is the first of `s` in byte-wise order. */
  predicate IsLeast(m: string, s: set<string>) {
    m in s && forall x :: x in s ==> x == m || StrLess(m, x)
  }

  /** Every non-empty finite set of strings has a least element. */
  lemma {:induction false} LeastExists(s: set<string>)
    requires s != {}
    ensures exists m :: IsLeast(m, s)
    decreases |s|
  {
    var y :| y in s;
    var rest := s - {y};
    if rest == {} {
      assert s == {y};
      assert IsLeast(y, s);
    } else {
      LeastExists(rest);
      var m :| IsLeast(m, rest);
      if StrLess(y, m) {
        forall x | x in s
          ensures x == y || StrLess(y, x)
        {
          if x != y && x != m {
            StrLessTransitive(y, m, x);
          }
        }
        assert IsLeast(y, s);
      } else {
        StrLessTotal(y, m);
        assert IsLeast(m, s);
      }
    }
  }

  /** The least element is unique. */
  lemma LeastUnique(m1: string, m2: string, s: set<string>)
    requires IsLeast(m1, s) && IsLeast(m2, s)
    ensures m1 == m2
  {
    if m1 != m2 {
      StrLessTransitive(m1, m2, m1);
      StrLessIrreflexive(m1);
      assert false;
    }
  }
}
