/** Failure-carrying results: the Python exceptions the scripts raise become `Err`. */
module Wrappers {

  datatype Option<+T> = None | Some(value: T)

  /** The Python exception classes that the modelled scripts can raise. */
  datatype Error =
    | ValueError
    | IndexError
    | KeyError
    | ZeroDivisionError
    | FileNotFoundError
    | AttributeError
    | TypeError

  datatype Result<+T> = Ok(value: T) | Err(error: Error)

  /**
   * A loop that converts every item in order and stops at the first failure:
   * the converted items, or the error of the first item that fails.
   */
  function MapAll<A, B>(items: seq<A>, f: A -> Result<B>): Result<seq<B>> {
    if items == [] then Ok([])
    else
      match MapAll(items[..|items| - 1], f)
      case Err(e) => Err(e)
      case Ok(bs) =>
        match f(items[|items| - 1])
        case Err(e) => Err(e)
        case Ok(b) => Ok(bs + [b])
  }

  /** The conversion succeeds iff every item converts; the results then follow the items one for one. */
  lemma {:induction false} MapAllMeaning<A, B>(items: seq<A>, f: A -> Result<B>)
    ensures MapAll(items, f).Ok? <==> forall i :: 0 <= i < |items| ==> f(items[i]).Ok?
    ensures MapAll(items, f).Ok? ==>
      |MapAll(items, f).value| == |items| &&
      forall i :: 0 <= i < |items| ==> f(items[i]) == Ok(MapAll(items, f).value[i])
    ensures MapAll(items, f).Err? ==>
      exists i :: 0 <= i < |items| && f(items[i]) == Err(MapAll(items, f).error) &&
        forall j :: 0 <= j < i ==> f(items[j]).Ok?
  {
    if items != [] {
      var n := |items| - 1;
      MapAllMeaning(items[..n], f);
      assert forall i :: 0 <= i < n ==> items[..n][i] == items[i];
      if MapAll(items, f).Err? && MapAll(items[..n], f).Ok? {
        assert f(items[n]) == Err(MapAll(items, f).error);
      }
    }
  }

  /** Once a prefix fails, the whole conversion fails with the same error. */
  lemma {:induction false} MapAllErr<A, B>(items: seq<A>, f: A -> Result<B>, k: nat, e: Error)
    requires k <= |items| && MapAll(items[..k], f) == Err(e)
    ensures MapAll(items, f) == Err(e)
    decreases |items| - k
  {
    if k < |items| {
      assert items[..k + 1][..k] == items[..k];
      MapAllErr(items, f, k + 1, e);
    } else {
      assert items[..k] == items;
    }
  }

  /** The outcome of a loop that produced `done` first and then `rest`. */
  function Prefixed<T>(done: seq<T>, rest: Result<seq<T>>): Result<seq<T>> {
    match rest
    case Err(e) => Err(e)
    case Ok(xs) => Ok(done + xs)
  }

  lemma PrefixedEmpty<T>(rest: Result<seq<T>>)
    ensures Prefixed([], rest) == rest
  {
    if rest.Ok? {
      assert [] + rest.value == rest.value;
    }
  }

  lemma PrefixedSnoc<T>(done: seq<T>, x: T, rest: Result<seq<T>>)
    ensures Prefixed(done, Prefixed([x], rest)) == Prefixed(done + [x], rest)
  {
    if rest.Ok? {
      assert done + ([x] + rest.value) == (done + [x]) + rest.value;
    }
  }
}

/**
 * The parts of Python's `str` that the scripts lean on: `split()`, `split(sep)`,
 * `strip()`, `startswith`, `isdigit`, `isalpha`, `lower` and `int()`.
 * Only ASCII whitespace, digits and letters are modelled.
 */
module Text {
  import opened Wrappers

  /** Python's `float()`: an abstract partial parser, supplied by the caller. */
  type RealParser = string -> Option<real>

  /** `float(t)`: the value, or `ValueError`. */
  function Float(t: string, toReal: RealParser): Result<real> {
    match toReal(t)
    case Some(v) => Ok(v)
    case None => Err(ValueError)
  }

  /**
   * `float(toks[j])` with Python indexing: a negative `j` counts from the end, an index
   * outside the list is an `IndexError`.
   */
  function FloatAt(toks: seq<string>, j: int, toReal: RealParser): Result<real> {
    if 0 <= j < |toks| then Float(toks[j], toReal)
    else if j < 0 && 0 <= j + |toks| then Float(toks[j + |toks|], toReal)
    else Err(IndexError)
  }

  /** `str.isspace()` on ASCII: space, tab, the line breaks, and the separators 0x1C-0x1F. */
  predicate IsSpace(c: char) {
    c == ' ' || '\t' <= c <= '\r' || '\U{001C}' <= c <= '\U{001F}'
  }

  predicate IsDigit(c: char) { '0' <= c <= '9' }

  predicate IsAlpha(c: char) { 'a' <= c <= 'z' || 'A' <= c <= 'Z' }

  predicate NoSpace(s: string) { forall i :: 0 <= i < |s| ==> !IsSpace(s[i]) }

  /** `s.isdigit()`: non-empty and made of digits only. */
  predicate IsDigits(s: string) { |s| > 0 && forall i :: 0 <= i < |s| ==> IsDigit(s[i]) }

  /** The longest run of digits at the start of `s`, what `(\d+)` or `(\d*)` captures there. */
  function DigitRun(s: string): (d: string)
    ensures |d| <= |s| && d == s[..|d|]
    ensures forall i :: 0 <= i < |d| ==> IsDigit(d[i])
    ensures |d| < |s| ==> !IsDigit(s[|d|])
  {
    if s == [] || !IsDigit(s[0]) then [] else [s[0]] + DigitRun(s[1..])
  }

  /** `s.startswith(p)` */
  predicate StartsWith(s: string, p: string) { |p| <= |s| && s[..|p|] == p }

  /** Length of the leading run of non-whitespace characters. */
  function WordLen(s: string): (n: nat)
    ensures n <= |s|
    ensures forall i :: 0 <= i < n ==> !IsSpace(s[i])
    ensures n < |s| ==> IsSpace(s[n])
  {
    if s == [] || IsSpace(s[0]) then 0 else 1 + WordLen(s[1..])
  }

  /** `s.split()`: the maximal runs of non-whitespace characters, in order. */
  function Words(s: string): (ws: seq<string>)
    ensures forall k :: 0 <= k < |ws| ==> ws[k] != [] && NoSpace(ws[k])
    decreases |s|
  {
    if s == [] then []
    else if IsSpace(s[0]) then Words(s[1..])
    else
      var n := WordLen(s);
      [s[..n]] + Words(s[n..])
  }

  function LStrip(s: string): string {
    if s != [] && IsSpace(s[0]) then LStrip(s[1..]) else s
  }

  function RStrip(s: string): string {
    if s != [] && IsSpace(s[|s| - 1]) then RStrip(s[..|s| - 1]) else s
  }

  /** `s.strip()` */
  function Strip(s: string): (t: string)
    ensures t == [] || (!IsSpace(t[0]) && !IsSpace(t[|t| - 1]))
  {
    StripShape(s);
    RStrip(LStrip(s))
  }

  lemma {:induction false} StripShape(s: string)
    ensures var t := RStrip(LStrip(s)); t == [] || (!IsSpace(t[0]) && !IsSpace(t[|t| - 1]))
  {
    var l := LStrip(s);
    LStripShape(s);
    RStripPrefix(l);
  }

  lemma {:induction false} LStripShape(s: string)
    ensures LStrip(s) == [] || !IsSpace(LStrip(s)[0])
  {
    if s != [] && IsSpace(s[0]) { LStripShape(s[1..]); }
  }

  lemma {:induction false} RStripPrefix(s: string)
    ensures var t := RStrip(s); t <= s && (t == [] || !IsSpace(t[|t| - 1]))
  {
    if s != [] && IsSpace(s[|s| - 1]) { RStripPrefix(s[..|s| - 1]); }
  }

  /** Appending one whitespace character never changes `split()`. */
  lemma {:induction false} WordsTrailingSpace(s: string, c: char)
    requires IsSpace(c)
    ensures Words(s + [c]) == Words(s)
    decreases |s|
  {
    if s == [] {
      assert Words([c]) == Words([]);
    } else if IsSpace(s[0]) {
      assert (s + [c])[1..] == s[1..] + [c];
      WordsTrailingSpace(s[1..], c);
    } else {
      var n := WordLen(s);
      WordLenExtend(s, c);
      assert (s + [c])[..n] == s[..n];
      assert (s + [c])[n..] == s[n..] + [c];
      WordsTrailingSpace(s[n..], c);
    }
  }

  lemma {:induction false} WordLenExtend(s: string, c: char)
    requires IsSpace(c)
    ensures WordLen(s + [c]) == WordLen(s)
  {
    if s != [] && !IsSpace(s[0]) {
      assert (s + [c])[1..] == s[1..] + [c];
      WordLenExtend(s[1..], c);
    }
  }

  lemma {:induction false} WordsRStrip(s: string)
    ensures Words(RStrip(s)) == Words(s)
    decreases |s|
  {
    if s != [] && IsSpace(s[|s| - 1]) {
      var p := s[..|s| - 1];
      assert s == p + [s[|s| - 1]];
      WordsTrailingSpace(p, s[|s| - 1]);
      WordsRStrip(p);
    }
  }

  lemma {:induction false} WordsLStrip(s: string)
    ensures Words(LStrip(s)) == Words(s)
  {
    if s != [] && IsSpace(s[0]) { WordsLStrip(s[1..]); }
  }

  /** `s.strip().split()` and `s.split()` agree, so the scripts' `line.strip().split()` is `Words(line)`. */
  lemma WordsStrip(s: string)
    ensures Words(Strip(s)) == Words(s)
  {
    WordsRStrip(LStrip(s));
    WordsLStrip(s);
  }

  /** A stripped line is empty exactly when it has no words. */
  lemma {:induction false} StripEmptyIffNoWords(s: string)
    ensures Strip(s) == [] <==> Words(s) == []
  {
    WordsStrip(s);
    var t := Strip(s);
    if t != [] {
      assert !IsSpace(t[0]);
      assert Words(t) == [t[..WordLen(t)]] + Words(t[WordLen(t)..]);
    }
  }

  /** `s.split(sep)`: the fields between separators; always at least one field. */
  function SplitOn(s: string, sep: char): (fs: seq<string>)
    ensures |fs| >= 1
    ensures forall k :: 0 <= k < |fs| ==> sep !in fs[k]
  {
    if s == [] then [[]]
    else if s[0] == sep then [[]] + SplitOn(s[1..], sep)
    else
      var rest := SplitOn(s[1..], sep);
      [[s[0]] + rest[0]] + rest[1..]
  }

  /** `sep.join(fs)` */
  function Join(fs: seq<string>, sep: char): string
    requires |fs| >= 1
  {
    if |fs| == 1 then fs[0] else fs[0] + [sep] + Join(fs[1..], sep)
  }

  /** Splitting loses nothing: joining the fields back gives the original text. */
  lemma {:induction false} JoinSplitOn(s: string, sep: char)
    ensures Join(SplitOn(s, sep), sep) == s
  {
    if s == [] {
    } else if s[0] == sep {
      JoinSplitOn(s[1..], sep);
      assert SplitOn(s, sep)[1..] == SplitOn(s[1..], sep);
    } else {
      JoinSplitOn(s[1..], sep);
      var rest := SplitOn(s[1..], sep);
      var fs := SplitOn(s, sep);
      assert fs[1..] == rest[1..];
      if |rest| == 1 {
        assert Join(fs, sep) == [s[0]] + rest[0];
      } else {
        assert rest == [rest[0]] + rest[1..];
        assert Join(rest, sep) == rest[0] + [sep] + Join(rest[1..], sep);
        assert Join(fs, sep) == [s[0]] + rest[0] + [sep] + Join(rest[1..], sep);
      }
    }
  }

  /** Splitting a separator-free join gives back the fields. */
  lemma {:induction false} SplitOnJoin(fs: seq<string>, sep: char)
    requires |fs| >= 1
    requires forall k :: 0 <= k < |fs| ==> sep !in fs[k]
    ensures SplitOn(Join(fs, sep), sep) == fs
    decreases |fs|
  {
    if |fs| == 1 {
      SplitOnFree(fs[0], [], sep);
      assert fs[0] + [] == fs[0];
    } else {
      SplitOnJoin(fs[1..], sep);
      var tail := [sep] + Join(fs[1..], sep);
      assert tail[0] == sep && tail[1..] == Join(fs[1..], sep);
      assert SplitOn(tail, sep) == [[]] + fs[1..];
      SplitOnFree(fs[0], tail, sep);
      assert fs[0] + [sep] + Join(fs[1..], sep) == fs[0] + tail;
      assert fs[0] + [] == fs[0];
      assert fs == [fs[0]] + fs[1..];
    }
  }

  /** A separator-free prefix glues onto the first field. */
  lemma {:induction false} SplitOnFree(w: string, rest: string, sep: char)
    requires sep !in w
    ensures var r := SplitOn(rest, sep);
      SplitOn(w + rest, sep) == [w + r[0]] + r[1..]
  {
    var r := SplitOn(rest, sep);
    if w == [] {
      assert w + rest == rest;
      assert w + r[0] == r[0];
      assert r == [r[0]] + r[1..];
    } else {
      assert w[0] in w;
      assert (w + rest)[0] == w[0] != sep;
      assert (w + rest)[1..] == w[1..] + rest;
      SplitOnFree(w[1..], rest, sep);
      assert w + r[0] == [w[0]] + (w[1..] + r[0]);
    }
  }

  /** The last `/`-separated component, as `os.path.basename` and `p.split('/')[-1]` give it. */
  function Basename(p: string): (b: string)
    ensures '/' !in b
    ensures |b| <= |p| && b == p[|p| - |b|..]
  {
    var fs := SplitOn(p, '/');
    BasenameSuffix(p);
    fs[|fs| - 1]
  }

  lemma {:induction false} BasenameSuffix(p: string)
    ensures var fs := SplitOn(p, '/'); var b := fs[|fs| - 1]; |b| <= |p| && p[|p| - |b|..] == b
  {
    if p != [] {
      BasenameSuffix(p[1..]);
      var rest := SplitOn(p[1..], '/');
      var fs := SplitOn(p, '/');
      if p[0] == '/' || |rest| > 1 {
        assert fs[|fs| - 1] == rest[|rest| - 1];
        var b := rest[|rest| - 1];
        assert p[|p| - |b|..] == p[1..][|p| - 1 - |b|..];
      } else {
        JoinSplitOn(p[1..], '/');
        assert fs == [[p[0]] + p[1..]];
        assert [p[0]] + p[1..] == p;
      }
    }
  }

  /** `s.replace(c, "")` */
  function RemoveChar(s: string, c: char): (t: string)
    ensures c !in t && |t| <= |s|
  {
    if s == [] then [] else (if s[0] == c then [] else [s[0]]) + RemoveChar(s[1..], c)
  }

  /** `s.lower()` on ASCII letters. */
  function Lower(s: string): (t: string)
    ensures |t| == |s|
  {
    seq(|s|, i requires 0 <= i < |s| => if 'A' <= s[i] <= 'Z' then (s[i] as int + 32) as char else s[i])
  }

  /** The value of a run of decimal digits. */
  function DigitsValue(s: string): nat
    requires forall i :: 0 <= i < |s| ==> IsDigit(s[i])
  {
    if s == [] then 0
    else
      assert IsDigit(s[|s| - 1]);
      10 * DigitsValue(s[..|s| - 1]) + (s[|s| - 1] as int - '0' as int)
  }

  /**
   * `int(s)`: surrounding whitespace, an optional sign and ASCII decimal
   * digits. The `_` digit separators Python also accepts are not modelled.
   */
  function ParseInt(s: string): (r: Option<int>)
    ensures r.Some? ==> Strip(s) != []
  {
    var t := Strip(s);
    if |t| > 1 && (t[0] == '-' || t[0] == '+') && IsDigits(t[1..]) then
      var v: int := DigitsValue(t[1..]);
      Some(if t[0] == '-' then -v else v)
    else if IsDigits(t) then Some(DigitsValue(t))
    else None
  }

  /** The decimal spelling of a natural number, the inverse of `DigitsValue`. */
  function NatToString(n: nat): (s: string)
    ensures IsDigits(s)
  {
    if n < 10 then [('0' as int + n) as char]
    else NatToString(n / 10) + [('0' as int + n % 10) as char]
  }

  lemma {:induction false} DigitsValueNatToString(n: nat)
    ensures DigitsValue(NatToString(n)) == n
  {
    if n >= 10 {
      var s := NatToString(n);
      assert s[..|s| - 1] == NatToString(n / 10);
      DigitsValueNatToString(n / 10);
    }
  }

  /** Printing an integer and reading it back with `int()` gives the integer. */
  lemma ParseIntNatToString(n: nat)
    ensures ParseInt(NatToString(n)) == Some(n)
  {
    var s := NatToString(n);
    StripNoSpace(s);
    DigitsValueNatToString(n);
  }

  lemma {:induction false} WordLenWord(w: string, rest: string)
    requires NoSpace(w)
    requires rest == [] || IsSpace(rest[0])
    ensures WordLen(w + rest) == |w|
  {
    if w != [] {
      assert (w + rest)[1..] == w[1..] + rest;
      WordLenWord(w[1..], rest);
    } else {
      assert w + rest == rest;
    }
  }

  /** A word followed by whitespace or nothing is the first word. */
  lemma WordsWord(w: string, rest: string)
    requires w != [] && NoSpace(w)
    requires rest == [] || IsSpace(rest[0])
    ensures Words(w + rest) == [w] + Words(rest)
  {
    WordLenWord(w, rest);
    assert (w + rest)[..|w|] == w;
    assert (w + rest)[|w|..] == rest;
  }

  /** Splitting a line of words joined by single spaces gives back the words. */
  lemma {:induction false} WordsJoin(ws: seq<string>)
    requires |ws| >= 1
    requires forall k :: 0 <= k < |ws| ==> ws[k] != [] && NoSpace(ws[k])
    ensures Words(Join(ws, ' ')) == ws
  {
    if |ws| == 1 {
      WordsWord(ws[0], []);
      assert ws[0] + [] == ws[0];
    } else {
      WordsJoin(ws[1..]);
      var rest := [' '] + Join(ws[1..], ' ');
      WordsWord(ws[0], rest);
      assert ws[0] + [' '] + Join(ws[1..], ' ') == ws[0] + rest;
      assert Words(rest) == Words(Join(ws[1..], ' '));
      assert ws == [ws[0]] + ws[1..];
    }
  }

  lemma {:induction false} StripNoSpace(s: string)
    requires NoSpace(s)
    ensures Strip(s) == s
  {
    if s != [] {
      assert LStrip(s) == s;
      assert RStrip(s) == s;
    }
  }
}

/** Points in space and the squared Euclidean distance the KD-tree and norm calls test. */
module Geometry {

  datatype Point = Point(x: real, y: real, z: real)

  function SqDist(p: Point, q: Point): (d: real)
    ensures d >= 0.0
  {
    (p.x - q.x) * (p.x - q.x) + (p.y - q.y) * (p.y - q.y) + (p.z - q.z) * (p.z - q.z)
  }

  lemma SqDistSymmetric(p: Point, q: Point)
    ensures SqDist(p, q) == SqDist(q, p)
  {}

  /**
   * `|p - q| <= d`, the test of a KD-tree radius query: no pair qualifies
   * when the radius is negative, otherwise compare squares.
   */
  predicate Within(p: Point, q: Point, d: real) {
    d >= 0.0 && SqDist(p, q) <= d * d
  }

  /** `|p - q| > tol`, written without a square root. */
  predicate Apart(p: Point, q: Point, tol: real) {
    tol < 0.0 || SqDist(p, q) > tol * tol
  }

  lemma WithinSymmetric(p: Point, q: Point, d: real)
    ensures Within(p, q, d) <==> Within(q, p, d)
  {
    SqDistSymmetric(p, q);
  }

  lemma ApartSymmetric(p: Point, q: Point, tol: real)
    ensures Apart(p, q, tol) <==> Apart(q, p, tol)
  {
    SqDistSymmetric(p, q);
  }

  /** A point is never apart from itself by a non-negative tolerance. */
  lemma NotApartSelf(p: Point, tol: real)
    requires tol >= 0.0
    ensures !Apart(p, p, tol)
  {}
}
