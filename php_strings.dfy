/**
 * The PHP string built-ins the configuration engine relies on: explode,
 * implode, trim, ltrim, the (int) cast, dirname and basename. Strings are
 * sequences of characters; the multibyte and locale behaviour of PHP is not
 * modelled.
 */
module PhpStrings {

  predicate IsDigit(c: char) { '0' <= c <= '9' }

  predicate AllDigits(s: string) { forall i :: 0 <= i < |s| ==> IsDigit(s[i]) }

  /** ctype_alpha on one character: an ASCII letter. */
  predicate IsAlpha(c: char) { 'a' <= c <= 'z' || 'A' <= c <= 'Z' }

  /**
   * The six ASCII white-space characters: those an integer cast skips and
   * those the regular-expression class \s matches.
   */
  predicate IsSpace(c: char) {
    c == ' ' || c == '\t' || c == '\n' || c == '\r' || c == '\U{0B}' || c == '\U{0C}'
  }

  /** The characters trim() removes by default. */
  predicate IsTrimChar(c: char) {
    c == ' ' || c == '\t' || c == '\n' || c == '\r' || c == '\0' || c == '\U{0B}'
  }

  predicate IsSlash(c: char) { c == '/' }

  predicate NotSlash(c: char) { c != '/' }

  /** Length of the longest prefix of `s` whose characters all satisfy `p`. */
  function CountLeading(s: string, p: char -> bool): (n: nat)
    ensures n <= |s|
    ensures forall i :: 0 <= i < n ==> p(s[i])
    ensures n < |s| ==> !p(s[n])
  {
    if s == [] || !p(s[0]) then 0 else 1 + CountLeading(s[1..], p)
  }

  /** Length of the longest suffix of `s` whose characters all satisfy `p`. */
  function CountTrailing(s: string, p: char -> bool): (n: nat)
    ensures n <= |s|
    ensures forall i :: |s| - n <= i < |s| ==> p(s[i])
    ensures n < |s| ==> !p(s[|s| - n - 1])
  {
    if s == [] || !p(s[|s| - 1]) then 0 else 1 + CountTrailing(s[..|s| - 1], p)
  }

  // ----- digits and the (int) cast -----

  function DigitValue(c: char): nat
    requires IsDigit(c)
  {
    c as int - '0' as int
  }

  function DigitChar(d: nat): (c: char)
    requires d < 10
    ensures IsDigit(c) && DigitValue(c) == d
  {
    ('0' as int + d) as char
  }

  /** The value of a string of decimal digits. */
  function DigitsValue(s: string): nat
    requires AllDigits(s)
  {
    if s == [] then 0 else DigitsValue(s[..|s| - 1]) * 10 + DigitValue(s[|s| - 1])
  }

  /** The decimal spelling of a natural number, without leading zeros. */
  function NatToDecimal(n: nat): (s: string)
    ensures |s| > 0 && AllDigits(s)
    ensures |s| > 1 ==> s[0] != '0'
  {
    if n < 10 then [DigitChar(n)] else NatToDecimal(n / 10) + [DigitChar(n % 10)]
  }

  lemma {:induction false} DecimalRoundTrip(n: nat)
    ensures DigitsValue(NatToDecimal(n)) == n
  {
    if n >= 10 {
      var s := NatToDecimal(n);
      assert s[..|s| - 1] == NatToDecimal(n / 10);
      DecimalRoundTrip(n / 10);
    }
  }

  /**
   * PHP's (int) cast of a string: leading whitespace, an optional sign and
   * the longest run of digits; a string with no leading digits casts to 0.
   */
  function IntCast(s: string): (r: int)
    ensures |s| > 0 && AllDigits(s) ==> r == DigitsValue(s)
  {
    var t := s[CountLeading(s, IsSpace)..];
    assert |s| > 0 && AllDigits(s) ==> t == s && CountLeading(s, IsDigit) == |s| && s[..|s|] == s by {
      if |s| > 0 && AllDigits(s) {
        assert !IsSpace(s[0]);
      }
    }
    var signed := |t| > 0 && (t[0] == '-' || t[0] == '+');
    var u := if signed then t[1..] else t;
    var v: int := DigitsValue(u[..CountLeading(u, IsDigit)]);
    if signed && t[0] == '-' then -v else v
  }

  lemma IntCastDecimal(n: nat)
    ensures IntCast(NatToDecimal(n)) == n
  {
    var s := NatToDecimal(n);
    assert !IsSpace(s[0]);
    assert CountLeading(s, IsSpace) == 0;
    assert s[0..] == s;
    assert CountLeading(s, IsDigit) == |s|;
    assert s[..|s|] == s;
    DecimalRoundTrip(n);
  }

  predicate NotSpace(c: char) { !IsSpace(c) }

  // ----- explode and implode -----

  /** `x` occurs in `s` at position `i`. */
  predicate OccursAt(s: string, x: string, i: int) {
    0 <= i && i + |x| <= |s| && s[i..i + |x|] == x
  }

  predicate Contains(s: string, x: string) {
    exists i :: 0 <= i <= |s| - |x| && OccursAt(s, x, i)
  }

  /** implode($sep, $parts). */
  function Implode(sep: string, parts: seq<string>): (r: string)
    ensures parts != [] ==> parts[0] <= r
    ensures |parts| == 1 ==> r == parts[0]
  {
    if parts == [] then ""
    else if |parts| == 1 then parts[0]
    else parts[0] + sep + Implode(sep, parts[1..])
  }

  /**
   * explode($sep, $s): the pieces between the occurrences of `sep`, found left
   * to right without overlap. Always at least one piece.
   */
  function Explode(sep: string, s: string): (r: seq<string>)
    requires |sep| > 0
    ensures |r| > 0
    decreases |s|
  {
    if |s| < |sep| then [s]
    else if s[..|sep|] == sep then [""] + Explode(sep, s[|sep|..])
    else
      var rest := Explode(sep, s[1..]);
      [[s[0]] + rest[0]] + rest[1..]
  }

  /** Every part occurs in the joined string, after the parts and separators before it. */
  lemma {:induction false} ImplodeHasPart(sep: string, parts: seq<string>, k: nat)
    requires k < |parts|
    ensures Contains(Implode(sep, parts), parts[k])
    decreases k
  {
    var r := Implode(sep, parts);
    if k == 0 {
      assert OccursAt(r, parts[0], 0);
    } else {
      var tail := Implode(sep, parts[1..]);
      var off := |parts[0]| + |sep|;
      assert r == parts[0] + sep + tail;
      ImplodeHasPart(sep, parts[1..], k - 1);
      var i :| 0 <= i <= |tail| - |parts[k]| && OccursAt(tail, parts[k], i);
      assert r[off + i..off + i + |parts[k]|] == tail[i..i + |parts[k]|];
      assert OccursAt(r, parts[k], off + i);
    }
  }

  lemma ImplodeCons(sep: string, a: string, b: string, tail: seq<string>)
    ensures Implode(sep, [a + b] + tail) == a + Implode(sep, [b] + tail)
  {
    if tail != [] {
      assert ([a + b] + tail)[1..] == tail;
      assert ([b] + tail)[1..] == tail;
    }
  }

  /** Joining the pieces of explode with the same separator gives back the input. */
  lemma {:induction false} ImplodeExplode(sep: string, s: string)
    requires |sep| > 0
    ensures Implode(sep, Explode(sep, s)) == s
    decreases |s|
  {
    if |s| < |sep| {
      assert Explode(sep, s) == [s];
    } else if s[..|sep|] == sep {
      var tail := s[|sep|..];
      var rest := Explode(sep, tail);
      assert Explode(sep, s) == [""] + rest;
      ImplodeExplode(sep, tail);
      var parts := [""] + rest;
      assert parts[1..] == rest;
      assert Implode(sep, parts) == "" + sep + Implode(sep, rest);
      assert s == sep + tail;
    } else {
      var tail := s[1..];
      var rest := Explode(sep, tail);
      assert Explode(sep, s) == [[s[0]] + rest[0]] + rest[1..];
      ImplodeExplode(sep, tail);
      assert [rest[0]] + rest[1..] == rest;
      ImplodeCons(sep, [s[0]], rest[0], rest[1..]);
      assert s == [s[0]] + tail;
    }
  }

  /** The first piece of explode is a prefix of the input. */
  lemma {:induction false} ExplodeFirstIsPrefix(sep: string, s: string)
    requires |sep| > 0
    ensures Explode(sep, s)[0] <= s
    decreases |s|
  {
    if |s| >= |sep| && s[..|sep|] != sep {
      ExplodeFirstIsPrefix(sep, s[1..]);
    }
  }

  /** A piece that `sep` does not start, glued to a sep-free prefix of the rest, stays sep-free. */
  lemma GluedPieceIsFree(sep: string, s: string, piece: string)
    requires |sep| > 0 && |s| >= |sep| && s[..|sep|] != sep
    requires piece <= s[1..] && !Contains(piece, sep)
    ensures !Contains([s[0]] + piece, sep)
  {
    var first := [s[0]] + piece;
    forall i | 0 <= i <= |first| - |sep| && OccursAt(first, sep, i) ensures false {
      if i > 0 {
        assert piece[i - 1..i - 1 + |sep|] == first[i..i + |sep|];
        assert OccursAt(piece, sep, i - 1);
      }
    }
  }

  /** No piece of explode contains the separator. */
  lemma {:induction false} ExplodePiecesAreFree(sep: string, s: string)
    requires |sep| > 0
    ensures forall k :: 0 <= k < |Explode(sep, s)| ==> !Contains(Explode(sep, s)[k], sep)
    decreases |s|
  {
    var r := Explode(sep, s);
    if |s| < |sep| {
      assert r == [s];
      assert !Contains(s, sep);
    } else if s[..|sep|] == sep {
      var rest := Explode(sep, s[|sep|..]);
      ExplodePiecesAreFree(sep, s[|sep|..]);
      assert r == [""] + rest;
      assert !Contains("", sep);
      forall k | 0 <= k < |r| ensures !Contains(r[k], sep) {
        if k > 0 {
          assert r[k] == rest[k - 1];
        }
      }
    } else {
      var rest := Explode(sep, s[1..]);
      ExplodePiecesAreFree(sep, s[1..]);
      ExplodeFirstIsPrefix(sep, s[1..]);
      assert r == [[s[0]] + rest[0]] + rest[1..];
      GluedPieceIsFree(sep, s, rest[0]);
      forall k | 0 <= k < |r| ensures !Contains(r[k], sep) {
        if k > 0 {
          assert r[k] == rest[k];
        }
      }
    }
  }

  /** Text in which the separator never occurs is a single piece. */
  lemma {:induction false} ExplodeWithout(sep: string, h: string)
    requires |sep| > 0 && !Contains(h, sep)
    ensures Explode(sep, h) == [h]
    decreases |h|
  {
    if |h| >= |sep| {
      assert !OccursAt(h, sep, 0);
      forall i | 0 <= i <= |h[1..]| - |sep| ensures !OccursAt(h[1..], sep, i) {
        assert h[1..][i..i + |sep|] == h[i + 1..i + 1 + |sep|];
        assert !OccursAt(h, sep, i + 1);
      }
      ExplodeWithout(sep, h[1..]);
      assert [h[0]] + h[1..] == h;
    }
  }

  /** Text missing the separator's first character does not contain the separator. */
  lemma FirstCharAbsent(sep: string, h: string)
    requires |sep| > 0 && sep[0] !in h
    ensures !Contains(h, sep)
    ensures forall i :: 0 <= i < |h| ==> !OccursAt(h + sep, sep, i)
  {
    forall i | 0 <= i <= |h| - |sep| ensures !OccursAt(h, sep, i) {
      assert h[i] in h;
    }
    forall i | 0 <= i < |h| ensures !OccursAt(h + sep, sep, i) {
      assert (h + sep)[i] == h[i] && h[i] in h;
    }
  }

  /** Whether or not the separator's first character occurs, its absence means a single piece. */
  lemma ExplodeSingle(sep: string, h: string)
    requires |sep| > 0
    ensures sep[0] !in h ==> Explode(sep, h) == [h]
  {
    if sep[0] !in h {
      FirstCharAbsent(sep, h);
      ExplodeWithout(sep, h);
    }
  }

  /**
   * The first piece is everything before the first separator: when no
   * occurrence of the separator starts inside `h`, `h` is the first piece.
   */
  lemma {:induction false} ExplodeAtFirst(sep: string, h: string, rest: string)
    requires |sep| > 0
    requires forall i :: 0 <= i < |h| ==> !OccursAt(h + sep, sep, i)
    ensures Explode(sep, h + sep + rest) == [h] + Explode(sep, rest)
    decreases |h|
  {
    var s := h + sep + rest;
    if h == [] {
      assert s[..|sep|] == sep;
      assert s[|sep|..] == rest;
    } else {
      var hs, t := h + sep, h[1..] + sep;
      assert !OccursAt(hs, sep, 0);
      assert s[..|sep|] == hs[..|sep|];
      assert s[1..] == h[1..] + sep + rest;
      forall i | 0 <= i < |h[1..]| ensures !OccursAt(t, sep, i) {
        assert t[i..i + |sep|] == hs[i + 1..i + 1 + |sep|];
        assert !OccursAt(hs, sep, i + 1);
      }
      ExplodeAtFirst(sep, h[1..], rest);
      assert [h[0]] + h[1..] == h;
    }
  }

  // ----- trim and ltrim -----

  /** trim($s): drop the default trim characters at both ends. */
  function Trim(s: string): (r: string)
    ensures var lead := CountLeading(s, IsTrimChar);
      lead + |r| <= |s| && r == s[lead..lead + |r|]
      && forall i :: lead + |r| <= i < |s| ==> IsTrimChar(s[i])
    ensures r != [] ==> !IsTrimChar(r[0]) && !IsTrimChar(r[|r| - 1])
  {
    var lead := CountLeading(s, IsTrimChar);
    var t := s[lead..];
    var trail := CountTrailing(t, IsTrimChar);
    var r := t[..|t| - trail];
    assert r == s[lead..lead + |r|];
    r
  }

  /** ltrim($s, '/'): drop every leading slash. */
  function LTrimSlashes(s: string): (r: string)
    ensures |r| <= |s| && r == s[|s| - |r|..]
    ensures forall i :: 0 <= i < |s| - |r| ==> s[i] == '/'
    ensures r == [] || r[0] != '/'
  {
    if s != [] && s[0] == '/' then
      var t := s[1..];
      var r := LTrimSlashes(t);
      assert t[|t| - |r|..] == s[|s| - |r|..];
      assert forall i :: 1 <= i < |s| - |r| ==> s[i] == t[i - 1];
      r
    else s
  }

  // ----- dirname and basename (POSIX flavour) -----

  function StripTrailingSlashes(s: string): (r: string)
    ensures |r| <= |s| && r == s[..|r|]
    ensures r == [] || r[|r| - 1] != '/'
    ensures forall i :: |r| <= i < |s| ==> s[i] == '/'
  {
    s[..|s| - CountTrailing(s, IsSlash)]
  }

  /**
   * dirname($p): strip trailing slashes, then the last component, then the
   * slashes before it; "." when no slash is left, "/" when only slashes.
   */
  function Dirname(p: string): (r: string)
    ensures p != [] ==> r != []
  {
    if p == [] then ""
    else
      var a := StripTrailingSlashes(p);
      if a == [] then "/"
      else
        var b := a[..|a| - CountTrailing(a, NotSlash)];
        if b == [] then "."
        else
          var c := StripTrailingSlashes(b);
          if c == [] then "/" else c
  }

  /** basename($p): the last component, trailing slashes ignored. */
  function Basename(p: string): (r: string)
    ensures |r| <= |p| && forall i :: 0 <= i < |r| ==> r[i] != '/'
  {
    var a := StripTrailingSlashes(p);
    a[|a| - CountTrailing(a, NotSlash)..]
  }

  lemma TrailingAfterBoundary(x: string, y: string, p: char -> bool)
    requires forall i :: 0 <= i < |y| ==> p(y[i])
    requires |x| > 0 && !p(x[|x| - 1])
    ensures CountTrailing(x + y, p) == |y|
    decreases |y|
  {
    if y != [] {
      assert (x + y)[..|x + y| - 1] == x + y[..|y| - 1];
      TrailingAfterBoundary(x, y[..|y| - 1], p);
    } else {
      assert x + y == x;
    }
  }

  /** The last component of `dir/child` is `child`. */
  lemma BasenameOfJoin(dir: string, child: string)
    requires |child| > 0 && (forall i :: 0 <= i < |child| ==> child[i] != '/')
    ensures Basename(dir + "/" + child) == child
  {
    var p := dir + "/" + child;
    assert p[|p| - 1] == child[|child| - 1];
    assert CountTrailing(p, IsSlash) == 0;
    assert StripTrailingSlashes(p) == p;
    TrailingAfterBoundary(dir + "/", child, NotSlash);
    assert p[|p| - |child|..] == child;
  }

  /** The directory of `head/file` is `head`, when `head` does not end in a slash. */
  lemma DirnameOfJoin(head: string, file: string)
    requires |head| > 0 && head[|head| - 1] != '/'
    requires |file| > 0 && (forall i :: 0 <= i < |file| ==> file[i] != '/')
    ensures Dirname(head + "/" + file) == head
  {
    var p := head + "/" + file;
    assert p[|p| - 1] == file[|file| - 1];
    assert CountTrailing(p, IsSlash) == 0;
    assert StripTrailingSlashes(p) == p;
    TrailingAfterBoundary(head + "/", file, NotSlash);
    assert p[..|p| - |file|] == head + "/";
    TrailingAfterBoundary(head, "/", IsSlash);
    assert (head + "/")[..|head|] == head;
    assert CountTrailing(head, IsSlash) == 0;
  }

  /**
   * A glob hit `dir/child/file` names the child directory `child` once
   * dirname and then basename are applied.
   */
  lemma SectionNameOfHit(dir: string, child: string, file: string)
    requires |child| > 0 && (forall i :: 0 <= i < |child| ==> child[i] != '/')
    requires |file| > 0 && (forall i :: 0 <= i < |file| ==> file[i] != '/')
    ensures Basename(Dirname(dir + "/" + child + "/" + file)) == child
  {
    var head := dir + "/" + child;
    assert head[|head| - 1] == child[|child| - 1];
    DirnameOfJoin(head, file);
    BasenameOfJoin(dir, child);
  }

}
