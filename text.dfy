/** Text helpers the backend relies on: Python's str() of an int, int() of a
    float, os.path.splitext, pathlib's Path.stem and the "*.mp4" glob pattern. */
module Text {

  /** The character for a decimal digit. */
  function DigitChar(d: nat): (c: char)
    requires d < 10
    ensures '0' <= c <= '9'
    ensures c as int - '0' as int == d
  {
    ('0' as int + d) as char
  }

  predicate IsDigits(s: string) {
    forall i :: 0 <= i < |s| ==> '0' <= s[i] <= '9'
  }

  /** Decimal digits of n, most significant first, as str(n) prints a non-negative int. */
  function Digits(n: nat): (s: string)
    ensures |s| >= 1 && IsDigits(s)
    ensures n < 10 <==> |s| == 1
  {
    if n < 10 then [DigitChar(n)] else Digits(n / 10) + [DigitChar(n % 10)]
  }

  /** The number a string of decimal digits denotes. */
  function DigitsValue(s: string): nat
    requires IsDigits(s)
  {
    if s == [] then 0 else DigitsValue(s[..|s| - 1]) * 10 + (s[|s| - 1] as int - '0' as int)
  }

  lemma {:induction false} DigitsRoundTrip(n: nat)
    ensures DigitsValue(Digits(n)) == n
  {
    if n >= 10 {
      var s := Digits(n);
      assert s[..|s| - 1] == Digits(n / 10);
      DigitsRoundTrip(n / 10);
    }
  }

  /** str(i) for a Python int. */
  function IntToString(i: int): (s: string)
  {
    if i < 0 then "-" + Digits(-i) else Digits(i)
  }

  /** Reads back what IntToString printed; None for anything else. */
  function ParseInt(s: string): (r: Option<int>)
  {
    if |s| >= 2 && s[0] == '-' && IsDigits(s[1..]) then Some(0 - DigitsValue(s[1..]))
    else if |s| >= 1 && IsDigits(s) then Some(DigitsValue(s))
    else None
  }

  datatype Option<T> = None | Some(value: T)

  lemma ParseNonNegative(n: nat)
    ensures ParseInt(IntToString(n)) == Some(n)
  {
    var d := Digits(n);
    assert IntToString(n) == d && '0' <= d[0] <= '9';
    DigitsRoundTrip(n);
  }

  lemma ParseNegative(n: nat)
    requires n > 0
    ensures ParseInt(IntToString(-(n as int))) == Some(-(n as int))
  {
    var d := Digits(n);
    var s := "-" + d;
    assert IntToString(-(n as int)) == s && s[0] == '-' && s[1..] == d;
    DigitsRoundTrip(n);
  }

  /** ParseInt reads back every int IntToString prints. */
  lemma IntToStringRoundTrip(i: int)
    ensures ParseInt(IntToString(i)) == Some(i)
  {
    if i < 0 {
      ParseNegative(-i);
    } else {
      ParseNonNegative(i);
    }
  }

  /** Two different ints never print the same way. */
  lemma IntToStringInjective(a: int, b: int)
    ensures IntToString(a) == IntToString(b) <==> a == b
  {
    IntToStringRoundTrip(a);
    IntToStringRoundTrip(b);
  }

  /** int(x) for a Python float: truncation toward zero. */
  function Trunc(x: real): (i: int)
    ensures x >= 0.0 ==> 0 <= i && i as real <= x < i as real + 1.0
    ensures x < 0.0 ==> i <= 0 && i as real - 1.0 < x <= i as real
  {
    if x >= 0.0 then x.Floor else -((-x).Floor)
  }

  /** Index of the last occurrence of c in s, or -1 (str.rfind). */
  function LastIndexOf(s: string, c: char): (i: int)
    ensures -1 <= i < |s|
    ensures i >= 0 ==> s[i] == c
    ensures forall j :: i < j < |s| ==> s[j] != c
  {
    if s == [] then -1
    else if s[|s| - 1] == c then |s| - 1
    else LastIndexOf(s[..|s| - 1], c)
  }

  predicate AllDots(s: string) {
    forall i :: 0 <= i < |s| ==> s[i] == '.'
  }

  /** os.path.splitext(name)[0] for a name without separators: the text before
      the last dot, unless only dots precede that dot. */
  function SplitextRoot(name: string): string
  {
    var dot := LastIndexOf(name, '.');
    if dot < 0 || AllDots(name[..dot]) then name else name[..dot]
  }

  /** pathlib's PurePath.stem: the name without its last suffix, where a suffix
      needs a dot that is neither the first nor the last character. */
  function PathStem(name: string): string
  {
    var dot := LastIndexOf(name, '.');
    if 0 < dot < |name| - 1 then name[..dot] else name
  }

  predicate EndsWith(s: string, suffix: string) {
    |suffix| <= |s| && s[|s| - |suffix|..] == suffix
  }

  /** Whether pathlib's glob("*.mp4") matches a directory entry's name: the star
      matches any text, the empty one and a leading dot included. */
  predicate GlobMp4(name: string) {
    EndsWith(name, ".mp4")
  }

  lemma {:induction false} LastDotOfSuffix(stem: string, ext: string)
    requires |ext| >= 1 && ext[0] == '.' && forall j :: 1 <= j < |ext| ==> ext[j] != '.'
    ensures LastIndexOf(stem + ext, '.') == |stem|
  {
    var s := stem + ext;
    var i := LastIndexOf(s, '.');
    assert s[|stem|] == '.';
  }

  /** The name tempfile gives a script, stem + ".py", has `stem` as its Path.stem. */
  lemma PathStemOfScript(stem: string)
    requires |stem| >= 1
    ensures PathStem(stem + ".py") == stem
  {
    LastDotOfSuffix(stem, ".py");
    assert (stem + ".py")[..|stem|] == stem;
  }

  /** What splitext leaves of a glob match: the name without ".mp4", unless that
      part is empty or all dots, in which case nothing is split off. */
  lemma SplitextOfGlobMatch(name: string)
    requires GlobMp4(name)
    ensures var base := name[..|name| - 4];
      SplitextRoot(name) == if AllDots(base) then name else base
  {
    var base := name[..|name| - 4];
    assert name == base + ".mp4";
    LastDotOfSuffix(base, ".mp4");
  }
}
