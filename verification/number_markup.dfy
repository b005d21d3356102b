/**
 * Digit highlighting in statement titles and paragraphs (main.js).
 *
 * The page rewrites text with a global regular-expression replace that wraps
 * every maximal run of digits in a `number-span` span, so that numbers can use
 * a different font. Without the `u` flag, `\d` matches exactly the ASCII digits.
 */
module NumberMarkup {

  /** `\d` in a JavaScript regular expression without the `u` flag. */
  predicate IsDigit(c: char) {
    '0' <= c <= '9'
  }

  /**
   * The digit test of a title: the regular expression is tried at each
   * position from the left, and succeeds exactly when some character is a digit.
   */
  function HasNumber(s: string): (b: bool)
    ensures b <==> exists i :: 0 <= i < |s| && IsDigit(s[i])
    decreases |s|
  {
    if |s| == 0 then false
    else if IsDigit(s[0]) then true
    else
      var rest := HasNumber(s[1..]);
      assert rest ==> exists i :: 0 <= i < |s| && IsDigit(s[i]) by {
        if rest {
          var j :| 0 <= j < |s[1..]| && IsDigit(s[1..][j]);
          assert IsDigit(s[j + 1]);
        }
      }
      assert (exists i :: 0 <= i < |s| && IsDigit(s[i])) ==> rest by {
        if exists i :: 0 <= i < |s| && IsDigit(s[i]) {
          var i :| 0 <= i < |s| && IsDigit(s[i]);
          assert i != 0 && IsDigit(s[1..][i - 1]);
        }
      }
      rest
  }

  predicate AllDigits(s: string) {
    forall i :: 0 <= i < |s| ==> IsDigit(s[i])
  }

  const Open: string := "<span class=\"number-span\">"
  const Close: string := "</span>"

  /** Length of the run of digits at the start of `s`: the greedy `\d+` match. */
  function DigitRun(s: string): (n: nat)
    ensures n <= |s|
    ensures AllDigits(s[..n])
    ensures n < |s| ==> !IsDigit(s[n])
  {
    if |s| > 0 && IsDigit(s[0]) then
      var m := DigitRun(s[1..]);
      assert s[..1 + m] == [s[0]] + s[1..][..m];
      1 + m
    else 0
  }

  /** `wrapNumbers`: the global replace scans left to right, wrapping each greedy digit run. */
  function WrapNumbers(s: string): (r: string)
    ensures |r| >= |s|
    decreases |s|
  {
    if |s| == 0 then []
    else if IsDigit(s[0]) then
      var n := DigitRun(s);
      Open + (s[..n] + (Close + WrapNumbers(s[n..])))
    else [s[0]] + WrapNumbers(s[1..])
  }

  // ---------------------------------------------------------------------------
  // Reference description: the text as a sequence of maximal digit runs and
  // single non-digit characters.

  datatype Piece = Digits(run: string) | Other(c: char)

  predicate WellFormed(p: Piece) {
    match p
    case Digits(d) => |d| > 0 && AllDigits(d)
    case Other(c) => !IsDigit(c)
  }

  /** Every run is maximal: no two digit runs are adjacent. */
  predicate Maximal(ps: seq<Piece>) {
    && (forall i :: 0 <= i < |ps| ==> WellFormed(ps[i]))
    && (forall i :: 0 <= i < |ps| - 1 ==> !(ps[i].Digits? && ps[i + 1].Digits?))
  }

  function Text(p: Piece): string {
    match p
    case Digits(d) => d
    case Other(c) => [c]
  }

  /** The characters the pieces stand for. */
  function Flatten(ps: seq<Piece>): string {
    if |ps| == 0 then [] else Text(ps[0]) + Flatten(ps[1..])
  }

  function Markup(p: Piece): string {
    match p
    case Digits(d) => Open + (d + Close)
    case Other(c) => [c]
  }

  /** The intended output: each digit run in a span, every other character as is. */
  function Render(ps: seq<Piece>): string {
    if |ps| == 0 then [] else Markup(ps[0]) + Render(ps[1..])
  }

  /** Every text has a maximal segmentation. */
  function Segment(s: string): (ps: seq<Piece>)
    ensures Maximal(ps)
    ensures Flatten(ps) == s
    ensures |s| > 0 ==> |ps| > 0 && (ps[0].Digits? <==> IsDigit(s[0]))
    decreases |s|
  {
    if |s| == 0 then []
    else if IsDigit(s[0]) then
      var n := DigitRun(s);
      var rest := Segment(s[n..]);
      var ps := [Digits(s[..n])] + rest;
      assert ps[1..] == rest;
      SplitJoin(s, n);
      ps
    else
      var rest := Segment(s[1..]);
      var ps := [Other(s[0])] + rest;
      assert ps[1..] == rest;
      SplitJoin(s, 1);
      ps
  }

  lemma {:induction false} MaximalTail(ps: seq<Piece>)
    requires Maximal(ps) && |ps| > 0
    ensures Maximal(ps[1..])
  {
    forall i | 0 <= i < |ps[1..]| - 1
      ensures !(ps[1..][i].Digits? && ps[1..][i + 1].Digits?)
    {
      assert ps[1..][i] == ps[i + 1] && ps[1..][i + 1] == ps[i + 2];
    }
  }

  /** The text of well-formed pieces starts with the first piece's first character. */
  lemma {:induction false} FlattenHead(ps: seq<Piece>)
    requires Maximal(ps) && |ps| > 0
    ensures |Flatten(ps)| > 0 && (IsDigit(Flatten(ps)[0]) <==> ps[0].Digits?)
  {
    assert WellFormed(ps[0]);
  }

  lemma {:induction false} DigitRunOfRun(d: string, t: string)
    requires AllDigits(d)
    requires |t| == 0 || !IsDigit(t[0])
    ensures DigitRun(d + t) == |d|
    decreases |d|
  {
    if |d| > 0 {
      assert (d + t)[1..] == d[1..] + t;
      DigitRunOfRun(d[1..], t);
    } else {
      assert d + t == t;
    }
  }

  /** `wrapNumbers` produces exactly the intended rendering of any maximal segmentation. */
  lemma {:induction false} WrapNumbersRendersRuns(ps: seq<Piece>)
    requires Maximal(ps)
    ensures WrapNumbers(Flatten(ps)) == Render(ps)
  {
    if |ps| > 0 {
      MaximalTail(ps);
      WrapNumbersRendersRuns(ps[1..]);
      var s := Flatten(ps);
      var rest := Flatten(ps[1..]);
      assert WellFormed(ps[0]);
      match ps[0]
      case Digits(d) =>
        if |ps[1..]| > 0 {
          FlattenHead(ps[1..]);
          assert ps[1..][0] == ps[1];
        }
        DigitRunOfRun(d, rest);
        assert s == d + rest;
        assert s[..|d|] == d && s[|d|..] == rest;
      case Other(c) =>
        assert s == [c] + rest;
        assert s[1..] == rest;
    }
  }

  /** The maximal segmentation of a text is unique. */
  lemma {:induction false} SegmentationUnique(ps: seq<Piece>, qs: seq<Piece>)
    requires Maximal(ps) && Maximal(qs)
    requires Flatten(ps) == Flatten(qs)
    ensures ps == qs
  {
    if |ps| == 0 || |qs| == 0 {
      if |ps| > 0 { FlattenHead(ps); }
      if |qs| > 0 { FlattenHead(qs); }
    } else {
      MaximalTail(ps);
      MaximalTail(qs);
      FlattenHead(ps);
      FlattenHead(qs);
      var s := Flatten(ps);
      assert WellFormed(ps[0]) && WellFormed(qs[0]);
      var n := |Text(ps[0])|;
      if ps[0].Digits? {
        if |ps[1..]| > 0 {
          FlattenHead(ps[1..]);
          assert ps[1..][0] == ps[1];
        }
        if |qs[1..]| > 0 {
          FlattenHead(qs[1..]);
          assert qs[1..][0] == qs[1];
        }
        DigitRunOfRun(ps[0].run, Flatten(ps[1..]));
        DigitRunOfRun(qs[0].run, Flatten(qs[1..]));
        assert s == ps[0].run + Flatten(ps[1..]);
        assert s == qs[0].run + Flatten(qs[1..]);
        assert |ps[0].run| == |qs[0].run|;
        assert ps[0].run == s[..n] == qs[0].run;
        assert Flatten(ps[1..]) == s[n..] == Flatten(qs[1..]);
      } else {
        assert s == [ps[0].c] + Flatten(ps[1..]);
        assert s == [qs[0].c] + Flatten(qs[1..]);
        assert Flatten(ps[1..]) == s[1..] == Flatten(qs[1..]);
      }
      SegmentationUnique(ps[1..], qs[1..]);
      SplitJoin(ps, 1);
      SplitJoin(qs, 1);
    }
  }

  // ---------------------------------------------------------------------------
  // Text without digits passes through unchanged.

  lemma {:induction false} WrapNumbersPlain(s: string)
    requires !HasNumber(s)
    ensures WrapNumbers(s) == s
    decreases |s|
  {
    if |s| > 0 {
      assert !HasNumber(s[1..]) by {
        forall i | 0 <= i < |s[1..]| ensures !IsDigit(s[1..][i]) {
          assert s[1..][i] == s[i + 1];
        }
      }
      WrapNumbersPlain(s[1..]);
      WrapNumbersHead(s);
      ConsSplit(s);
    }
  }

  /** `wrapNumbers` leaves a text unchanged exactly when it has no digit. */
  lemma {:induction false} WrapNumbersIdentity(s: string)
    ensures WrapNumbers(s) == s <==> !HasNumber(s)
    decreases |s|
  {
    if !HasNumber(s) {
      WrapNumbersPlain(s);
    } else {
      WrapNumbersGrows(s);
    }
  }

  lemma {:induction false} WrapNumbersGrows(s: string)
    requires HasNumber(s)
    ensures |WrapNumbers(s)| > |s|
    decreases |s|
  {
    if !IsDigit(s[0]) {
      var i :| 0 <= i < |s| && IsDigit(s[i]);
      assert IsDigit(s[1..][i - 1]);
      WrapNumbersGrows(s[1..]);
    }
  }

  // ---------------------------------------------------------------------------
  // Deleting the inserted markers gives the text back.

  /** Removes every span open and close marker, keeping all other characters in order. */
  function Unwrap(t: string): (r: string)
    ensures |r| <= |t|
    decreases |t|
  {
    if |t| == 0 then []
    else if Open <= t then Unwrap(t[|Open|..])
    else if Close <= t then Unwrap(t[|Close|..])
    else [t[0]] + Unwrap(t[1..])
  }

  predicate MarkerAt(s: string, i: int)
    requires 0 <= i <= |s|
  {
    Open <= s[i..] || Close <= s[i..]
  }

  /** The text does not itself contain a span marker. */
  predicate MarkerFree(s: string) {
    forall i :: 0 <= i <= |s| ==> !MarkerAt(s, i)
  }

  lemma MarkerFreeSuffix(s: string, k: nat)
    requires k <= |s| && MarkerFree(s)
    ensures MarkerFree(s[k..])
  {
    forall i | 0 <= i <= |s[k..]|
      ensures !MarkerAt(s[k..], i)
    {
      assert s[k..][i..] == s[k + i..];
      assert !MarkerAt(s, k + i);
    }
  }

  lemma SplitJoin<T>(s: seq<T>, n: nat)
    requires n <= |s|
    ensures s[..n] + s[n..] == s
  {
  }

  lemma ConsSplit<T>(s: seq<T>)
    requires |s| > 0
    ensures [s[0]] + s[1..] == s
  {
  }

  predicate NoAngle(d: string) {
    forall i :: 0 <= i < |d| ==> d[i] != '<'
  }

  lemma {:induction false} UnwrapPlain(d: string, t: string)
    requires NoAngle(d)
    ensures Unwrap(d + t) == d + Unwrap(t)
    decreases |d|
  {
    if |d| > 0 {
      var u := d + t;
      MarkersShaped();
      PrefixHead(Open, u);
      PrefixHead(Close, u);
      UnwrapNonMarker(u);
      assert u[1..] == d[1..] + t;
      UnwrapPlain(d[1..], t);
      ConsSplit(d);
    } else {
      assert d + t == t;
    }
  }

  lemma UnwrapOpen(t: string)
    ensures Unwrap(Open + t) == Unwrap(t)
  {
    assert (Open + t)[|Open|..] == t;
  }

  lemma UnwrapClose(t: string)
    ensures Unwrap(Close + t) == Unwrap(t)
  {
    var u := Close + t;
    assert u[1] == '/' != Open[1];
    assert !(Open <= u);
    assert u[|Close|..] == t;
  }

  /** The first character `wrapNumbers` outputs: the input's, or the '<' of a span. */
  lemma WrapNumbersHead(s: string)
    requires |s| > 0
    ensures |WrapNumbers(s)| > 0
    ensures IsDigit(s[0]) ==> WrapNumbers(s)[0] == '<'
    ensures !IsDigit(s[0]) ==> WrapNumbers(s) == [s[0]] + WrapNumbers(s[1..])
    ensures !IsDigit(s[0]) ==> WrapNumbers(s)[0] == s[0] && WrapNumbers(s)[1..] == WrapNumbers(s[1..])
  {
    if !IsDigit(s[0]) {
      assert ([s[0]] + WrapNumbers(s[1..]))[1..] == WrapNumbers(s[1..]);
    }
  }

  /**
   * A marker tail (`m[j..]`, `j >= 1`) holds neither '<' nor digits, so if the
   * output of `wrapNumbers` starts with it, the input already did.
   */
  lemma {:induction false} MarkerTailFromInput(s: string, m: string, j: nat)
    requires 1 <= j <= |m| && MarkerShape(m)
    ensures m[j..] <= WrapNumbers(s) ==> m[j..] <= s
    decreases |s|
  {
    if j < |m| && |s| > 0 && m[j..] <= WrapNumbers(s) {
      WrapNumbersHead(s);
      PrefixCons(m[j..], WrapNumbers(s));
      PrefixCons(m[j..], s);
      assert m[j + 1..] == m[j..][1..];
      MarkerTailFromInput(s[1..], m, j + 1);
    }
  }

  /** A marker opens with '<' and holds no other '<' and no digit. */
  predicate MarkerShape(m: string) {
    && |m| > 1
    && m[0] == '<'
    && forall i :: 1 <= i < |m| ==> m[i] != '<' && !IsDigit(m[i])
  }

  lemma MarkersShaped()
    ensures MarkerShape(Open) && MarkerShape(Close)
    ensures Open[1] != Close[1]
  {
  }

  lemma PrefixCons(p: string, t: string)
    requires |p| > 0 && |t| > 0
    ensures p <= t <==> p[0] == t[0] && p[1..] <= t[1..]
  {
  }

  lemma NoMarkerAtStart(s: string, m: string)
    requires |s| > 0 && s[0] == '<'
    requires MarkerShape(m)
    ensures m <= WrapNumbers(s) ==> m <= s
  {
    WrapNumbersHead(s);
    MarkerTailFromInput(s[1..], m, 1);
    PrefixCons(m, WrapNumbers(s));
    PrefixCons(m, s);
  }

  /** Deleting the markers around a digit run leaves the run. */
  lemma UnwrapSpan(d: string, w: string)
    requires NoAngle(d)
    ensures Unwrap(Open + (d + (Close + w))) == d + Unwrap(w)
  {
    UnwrapOpen(d + (Close + w));
    UnwrapPlain(d, Close + w);
    UnwrapClose(w);
  }

  lemma WrapNumbersDigitStep(s: string)
    requires |s| > 0 && IsDigit(s[0])
    ensures NoAngle(s[..DigitRun(s)])
    ensures WrapNumbers(s) == Open + (s[..DigitRun(s)] + (Close + WrapNumbers(s[DigitRun(s)..])))
  {
  }

  lemma UnwrapWrapDigitRun(s: string)
    requires |s| > 0 && IsDigit(s[0])
    requires Unwrap(WrapNumbers(s[DigitRun(s)..])) == s[DigitRun(s)..]
    ensures Unwrap(WrapNumbers(s)) == s
  {
    var n := DigitRun(s);
    WrapNumbersDigitStep(s);
    UnwrapSpan(s[..n], WrapNumbers(s[n..]));
    SplitJoin(s, n);
  }

  /** Unwrap(c + t) for a character that cannot start a marker. */
  lemma UnwrapNonMarker(t: string)
    requires |t| > 0 && !(Open <= t) && !(Close <= t)
    ensures Unwrap(t) == [t[0]] + Unwrap(t[1..])
  {
  }

  lemma PrefixHead(p: string, t: string)
    ensures p <= t && |p| > 0 ==> |t| > 0 && t[0] == p[0]
  {
  }

  /** `wrapNumbers` creates no marker at a non-digit character of a marker-free text. */
  lemma WrapNumbersNoMarkerAtStart(s: string)
    requires |s| > 0 && !IsDigit(s[0]) && !(Open <= s) && !(Close <= s)
    ensures !(Open <= WrapNumbers(s)) && !(Close <= WrapNumbers(s))
  {
    MarkersShaped();
    if s[0] == '<' {
      NoMarkerAtStart(s, Open);
      NoMarkerAtStart(s, Close);
    } else {
      WrapNumbersHead(s);
      PrefixHead(Open, WrapNumbers(s));
      PrefixHead(Close, WrapNumbers(s));
    }
  }

  lemma MarkerFreeHead(s: string)
    requires |s| > 0 && MarkerFree(s)
    ensures !(Open <= s) && !(Close <= s)
  {
    assert !MarkerAt(s, 0);
    assert s[0..] == s;
  }

  lemma UnwrapWrapOther(s: string)
    requires |s| > 0 && !IsDigit(s[0]) && MarkerFree(s)
    requires Unwrap(WrapNumbers(s[1..])) == s[1..]
    ensures Unwrap(WrapNumbers(s)) == s
  {
    MarkerFreeHead(s);
    WrapNumbersNoMarkerAtStart(s);
    WrapNumbersHead(s);
    UnwrapNonMarker(WrapNumbers(s));
    ConsSplit(s);
  }

  /** Deleting the span markers from `wrapNumbers`' output gives back a marker-free input. */
  lemma {:induction false} UnwrapWrapNumbers(s: string)
    requires MarkerFree(s)
    ensures Unwrap(WrapNumbers(s)) == s
    decreases |s|
  {
    if |s| > 0 {
      if IsDigit(s[0]) {
        var n := DigitRun(s);
        MarkerFreeSuffix(s, n);
        UnwrapWrapNumbers(s[n..]);
        UnwrapWrapDigitRun(s);
      } else {
        MarkerFreeSuffix(s, 1);
        UnwrapWrapNumbers(s[1..]);
        UnwrapWrapOther(s);
      }
    }
  }

  /** The marker-free requirement cannot be dropped: a literal close tag is lost. */
  lemma UnwrapNeedsMarkerFree()
    ensures WrapNumbers(Close) == Close
    ensures Unwrap(WrapNumbers(Close)) != Close
  {
    assert !HasNumber(Close) by {
      forall i | 0 <= i < |Close| ensures !IsDigit(Close[i]) { }
    }
    WrapNumbersIdentity(Close);
    assert Close <= Close;
    assert Close[|Close|..] == [];
  }

  // ---------------------------------------------------------------------------
  // Statement titles in the list (`renderStatementSection`).

  datatype Heading = Heading(cls: string, html: string)

  const NumberFix: string := "number-fix"

  /** The class and inner markup of a statement title's heading. */
  function TitleHeading(title: string): (h: Heading)
    ensures h.cls == NumberFix <==> HasNumber(title)
    ensures !HasNumber(title) ==> h.cls == ""
    ensures h.html == WrapNumbers(title)
  {
    WrapNumbersIdentity(title);
    if HasNumber(title) then Heading(NumberFix, WrapNumbers(title))
    else Heading("", title)
  }
}
