/**
 * The image path of the current step:
 * `title.toLowerCase().replace(/\s+/g, '') + "/" + stepNumber + ".png"`, over ASCII text.
 */
module AssetPath {
  import opened Wrappers
  import opened Navigation

  /** The ASCII characters JavaScript's `\s` matches: tab, line feed, vertical tab, form feed, carriage return, space. */
  predicate IsWhitespace(c: char) {
    c == ' ' || '\t' <= c <= '\r'
  }

  predicate IsUpper(c: char) {
    'A' <= c <= 'Z'
  }

  /** `toLowerCase` on one ASCII character. */
  function ToLower(c: char): (r: char)
    ensures !IsUpper(r)
    ensures IsUpper(c) ==> 'a' <= r <= 'z' && r as int - 'a' as int == c as int - 'A' as int
    ensures IsWhitespace(r) <==> IsWhitespace(c)
    ensures !IsUpper(c) ==> r == c
  {
    if IsUpper(c) then (c as int - 'A' as int + 'a' as int) as char else c
  }

  /** `toLowerCase`: every character lowered in place. */
  function LowerCase(s: string): (r: string)
    ensures |r| == |s|
    ensures forall i :: 0 <= i < |s| ==> r[i] == ToLower(s[i])
  {
    if s == [] then [] else [ToLower(s[0])] + LowerCase(s[1..])
  }

  /**
   * `replace(/\s+/g, '')`: removing every run of whitespace removes every whitespace character.
   * The contract alone admits dropping more; StripOfStripped, StripOfWhitespace and StripAppend
   * together pin the result down to the input's non-whitespace characters in order.
   */
  function StripWhitespace(s: string): (r: string)
    ensures |r| <= |s|
    ensures forall c :: c in r ==> c in s && !IsWhitespace(c)
  {
    if s == [] then []
    else (if IsWhitespace(s[0]) then [] else [s[0]]) + StripWhitespace(s[1..])
  }

  /** The asset folder of a tour: its title lowercased with all whitespace removed. */
  function AssetFolder(title: string): (r: string)
    ensures |r| <= |title|
    ensures forall c :: c in r ==> !IsWhitespace(c) && !IsUpper(c)
  {
    StripWhitespace(LowerCase(title))
  }

  /** Text without upper-case letters is its own lower case. */
  lemma LowerCaseOfLower(s: string)
    requires forall c :: c in s ==> !IsUpper(c)
    ensures LowerCase(s) == s
  {
  }

  lemma {:induction false} StripOfStripped(s: string)
    requires forall c :: c in s ==> !IsWhitespace(c)
    ensures StripWhitespace(s) == s
  {
    if s != [] {
      assert s[0] in s;
      assert forall c :: c in s[1..] ==> c in s;
      StripOfStripped(s[1..]);
    }
  }

  /** Normalising a folder name again changes nothing. */
  lemma AssetFolderIdempotent(title: string)
    ensures AssetFolder(AssetFolder(title)) == AssetFolder(title)
  {
    var f := AssetFolder(title);
    LowerCaseOfLower(f);
    StripOfStripped(f);
  }

  lemma LowerCaseAppend(a: string, b: string)
    ensures LowerCase(a + b) == LowerCase(a) + LowerCase(b)
  {
  }

  lemma {:induction false} StripAppend(a: string, b: string)
    ensures StripWhitespace(a + b) == StripWhitespace(a) + StripWhitespace(b)
  {
    if a == [] {
      assert a + b == b;
    } else {
      assert (a + b)[0] == a[0];
      assert (a + b)[1..] == a[1..] + b;
      StripAppend(a[1..], b);
    }
  }

  /** Words of a title: the folder of two words joined by whitespace is the two folders run together. */
  lemma AssetFolderJoin(a: string, sep: string, b: string)
    requires forall c :: c in sep ==> IsWhitespace(c)
    ensures AssetFolder(a + sep + b) == AssetFolder(a) + AssetFolder(b)
  {
    var la, ls, lb := LowerCase(a), LowerCase(sep), LowerCase(b);
    LowerCaseAppend(a + sep, b);
    LowerCaseAppend(a, sep);
    assert LowerCase(a + sep + b) == la + ls + lb;
    StripAppend(la + ls, lb);
    StripAppend(la, ls);
    assert forall c :: c in ls ==> IsWhitespace(c) by {
      forall c | c in ls ensures IsWhitespace(c) {
        var i :| 0 <= i < |ls| && ls[i] == c;
        assert sep[i] in sep;
      }
    }
    StripOfWhitespace(ls);
    assert StripWhitespace(la + ls) == StripWhitespace(la);
  }

  lemma {:induction false} StripOfWhitespace(s: string)
    requires forall c :: c in s ==> IsWhitespace(c)
    ensures StripWhitespace(s) == []
  {
    if s != [] {
      assert s[0] in s;
      assert forall c :: c in s[1..] ==> c in s;
      StripOfWhitespace(s[1..]);
    }
  }

  predicate IsDigit(c: char) {
    '0' <= c <= '9'
  }

  function DigitChar(d: int): (c: char)
    requires 0 <= d < 10
    ensures IsDigit(c)
  {
    ('0' as int + d) as char
  }

  /** The decimal text of a natural number, without leading zeros. */
  function Decimal(n: nat): (r: string)
    ensures |r| >= 1
    ensures forall c :: c in r ==> IsDigit(c)
    ensures r[0] == '0' <==> n == 0
    decreases n
  {
    if n < 10 then [DigitChar(n)] else Decimal(n / 10) + [DigitChar(n % 10)]
  }

  /** The value of a string of decimal digits. */
  function ParseDecimal(s: string): nat
    requires forall c :: c in s ==> IsDigit(c)
  {
    if s == [] then 0
    else
      assert forall c :: c in s[..|s| - 1] ==> c in s;
      var d := s[|s| - 1];
      assert d in s && IsDigit(d);
      ParseDecimal(s[..|s| - 1]) * 10 + (d as int - '0' as int)
  }

  /** Reading back the decimal text of n gives n. */
  lemma {:induction false} DecimalRoundTrip(n: nat)
    ensures ParseDecimal(Decimal(n)) == n
    decreases n
  {
    if n >= 10 {
      var d := Decimal(n);
      assert d[..|d| - 1] == Decimal(n / 10);
      DecimalRoundTrip(n / 10);
    }
  }

  /** How a template string shows an integer: a minus sign before the digits of a negative one. */
  function NumberText(n: int): (r: string)
    ensures '/' !in r
    ensures |r| >= 1 && (r[0] == '-' <==> n < 0)
    ensures forall i :: 0 < i < |r| ==> IsDigit(r[i])
  {
    if n < 0 then "-" + Decimal(-n)
    else
      var d := Decimal(n);
      assert d[0] in d;
      d
  }

  /** The integer a string of the form `NumberText` shows, if it has that form. */
  function ParseNumber(s: string): Option<int> {
    if |s| >= 2 && s[0] == '-' && (forall c :: c in s[1..] ==> IsDigit(c)) then
      var v: int := ParseDecimal(s[1..]); Some(-v)
    else if |s| >= 1 && forall c :: c in s ==> IsDigit(c) then Some(ParseDecimal(s))
    else None
  }

  lemma NumberTextRoundTrip(n: int)
    ensures ParseNumber(NumberText(n)) == Some(n)
  {
    if n < 0 {
      var t := NumberText(n);
      assert t[1..] == Decimal(-n);
      DecimalRoundTrip(-n);
    } else {
      var t := Decimal(n);
      assert t[0] in t;
      DecimalRoundTrip(n);
    }
  }

  /** The image path for a tour title and a step number. */
  function ImagePath(title: string, stepNumber: int): (r: string)
    ensures |r| == |AssetFolder(title)| + 1 + |NumberText(stepNumber)| + 4
    ensures r[..|AssetFolder(title)|] == AssetFolder(title) && r[|AssetFolder(title)|] == '/'
    ensures r[|r| - 4..] == ".png"
  {
    AssetFolder(title) + "/" + NumberText(stepNumber) + ".png"
  }

  /** Position of the last c in s, or -1 when there is none. */
  function LastIndexOf(s: string, c: char): (i: int)
    ensures -1 <= i < |s|
    ensures i >= 0 ==> s[i] == c
    ensures forall j :: i < j < |s| ==> s[j] != c
  {
    if s == [] then -1
    else if s[|s| - 1] == c then |s| - 1
    else LastIndexOf(s[..|s| - 1], c)
  }

  /** The inverse of ImagePath: the folder before the last '/', the number between it and ".png". */
  function SplitImagePath(p: string): Option<(string, int)> {
    if |p| < 4 || p[|p| - 4..] != ".png" then None
    else
      var body := p[..|p| - 4];
      var i := LastIndexOf(body, '/');
      if i < 0 then None
      else match ParseNumber(body[i + 1..])
        case None => None
        case Some(n) => Some((body[..i], n))
  }

  /** The image path keeps both the folder and the step number: splitting it gives them back. */
  lemma ImagePathRoundTrip(title: string, stepNumber: int)
    ensures SplitImagePath(ImagePath(title, stepNumber)) == Some((AssetFolder(title), stepNumber))
  {
    var folder, num := AssetFolder(title), NumberText(stepNumber);
    var p := ImagePath(title, stepNumber);
    var body := folder + "/" + num;
    assert p == body + ".png";
    assert p[|p| - 4..] == ".png";
    assert p[..|p| - 4] == body;
    var i := LastIndexOf(body, '/');
    assert body[|folder|] == '/';
    assert forall j :: |folder| < j < |body| ==> body[j] == num[j - |folder| - 1];
    assert i == |folder|;
    assert body[i + 1..] == num;
    assert body[..i] == folder;
    NumberTextRoundTrip(stepNumber);
  }

  /** Different steps of one tour never share an image. */
  lemma ImagePathInjective(title: string, n: int, m: int)
    requires ImagePath(title, n) == ImagePath(title, m)
    ensures n == m
  {
    ImagePathRoundTrip(title, n);
    ImagePathRoundTrip(title, m);
  }

  /** The `src` of the step image: the current tour's folder and the current step's number. */
  function StepImage(s: TourState): (r: string)
    requires Valid(s)
    ensures SplitImagePath(r) == Some((AssetFolder(s.currentTour.title), s.currentStep.stepNumber))
    ensures 1 <= s.currentStep.stepNumber <= s.currentTour.stepCount
  {
    ImagePathRoundTrip(s.currentTour.title, s.currentStep.stepNumber);
    ImagePath(s.currentTour.title, s.currentStep.stepNumber)
  }
}
