/** Go's string operations that the operator relies on. */
module Text {
  function Digit(d: nat): char
    requires d < 10
  {
    ['0', '1', '2', '3', '4', '5', '6', '7', '8', '9'][d]
  }

  /** `%d` of a non-negative number. */
  function Decimal(n: nat): string {
    if n < 10 then [Digit(n)] else Decimal(n / 10) + [Digit(n % 10)]
  }

  function DecimalInt(n: int): string {
    if n < 0 then "-" + Decimal(-n) else Decimal(n)
  }

  predicate Contains(s: string, c: char) {
    exists i :: 0 <= i < |s| && s[i] == c
  }

  /** `p` occurs in `s` at position `i`. */
  predicate At(s: string, p: string, i: int) {
    0 <= i && i + |p| <= |s| && s[i..i + |p|] == p
  }

  predicate HasSuffix(s: string, p: string) {
    At(s, p, |s| - |p|)
  }

  /** strings.Index from position `from` on: the first occurrence, or -1. */
  function Find(s: string, p: string, from: nat): (r: int)
    ensures r == -1 || from <= r
    ensures r == -1 ==> forall i :: from <= i ==> !At(s, p, i)
    ensures r >= 0 ==> At(s, p, r) && forall i :: from <= i < r ==> !At(s, p, i)
    decreases |s| - from
  {
    if At(s, p, from) then from
    else if from >= |s| then -1
    else Find(s, p, from + 1)
  }

  function Index(s: string, p: string): int {
    Find(s, p, 0)
  }

  /** strings.Split with a non-empty separator. */
  function Split(s: string, sep: string): (parts: seq<string>)
    requires sep != ""
    ensures parts != []
  {
    var i := Index(s, sep);
    if i == -1 then [s] else [s[..i]] + Split(s[i + |sep|..], sep)
  }

  /** strings.Join. */
  function Join(parts: seq<string>, sep: string): string {
    if parts == [] then ""
    else if |parts| == 1 then parts[0]
    else parts[0] + sep + Join(parts[1..], sep)
  }

  /** strings.ReplaceAll with a non-empty pattern: left to right, without overlaps. */
  function ReplaceAll(s: string, p: string, with: string): string
    requires p != ""
  {
    if s == "" then ""
    else if p <= s then with + ReplaceAll(s[|p|..], p, with)
    else [s[0]] + ReplaceAll(s[1..], p, with)
  }

  lemma {:induction false} JoinSnoc(parts: seq<string>, last: string, sep: string)
    requires parts != []
    ensures Join(parts + [last], sep) == Join(parts, sep) + sep + last
  {
    if |parts| > 1 {
      assert (parts + [last])[1..] == parts[1..] + [last];
      JoinSnoc(parts[1..], last, sep);
    } else {
      assert (parts + [last])[1..] == [last];
    }
  }

  lemma JoinCons(first: string, rest: seq<string>, sep: string)
    requires rest != []
    ensures Join([first] + rest, sep) == first + sep + Join(rest, sep)
  {
    assert ([first] + rest)[1..] == rest;
  }

  /** Joining undoes splitting, always. */
  lemma {:induction false} JoinAfterSplit(s: string, sep: string)
    requires sep != ""
    ensures Join(Split(s, sep), sep) == s
  {
    var i := Index(s, sep);
    if i != -1 {
      assert s == s[..i] + sep + s[i + |sep|..];
      hide Index, At;
      JoinAfterSplit(s[i + |sep|..], sep);
      var rest := Split(s[i + |sep|..], sep);
      assert Split(s, sep) == [s[..i]] + rest;
      JoinCons(s[..i], rest, sep);
    }
  }

  /** Every part but the last ends before the first separator, and the last one holds none. */
  predicate Splittable(parts: seq<string>, sep: string) {
    parts != [] && Index(parts[|parts| - 1], sep) == -1 &&
    forall i :: 0 <= i < |parts| - 1 ==> Index(parts[i] + sep, sep) == |parts[i]|
  }

  /** The first separator of `part + sep + rest` does not depend on `rest`. */
  lemma FirstSeparator(part: string, sep: string, rest: string)
    requires sep != ""
    ensures 0 <= Index(part + sep + rest, sep) <= |part|
    ensures Index(part + sep + rest, sep) == Index(part + sep, sep)
  {
    var long, short := part + sep + rest, part + sep;
    assert At(short, sep, |part|) && At(long, sep, |part|);
    forall i | 0 <= i <= |part|
      ensures At(long, sep, i) == At(short, sep, i)
    {
      assert long[i..i + |sep|] == short[i..i + |sep|];
    }
  }

  /** Splitting undoes joining exactly for splittable parts. */
  lemma {:induction false} SplitAfterJoinIff(parts: seq<string>, sep: string)
    requires sep != "" && parts != []
    ensures Split(Join(parts, sep), sep) == parts <==> Splittable(parts, sep)
  {
    if |parts| == 1 {
      SplitOnly(parts[0], sep);
    } else {
      hide Splittable, At;
      SplitFirst(parts[0], sep, Join(parts[1..], sep), parts);
      SplitAfterJoinIff(parts[1..], sep);
      SplittableTail(parts, sep);
    }
  }

  lemma SplitOnly(part: string, sep: string)
    requires sep != ""
    ensures Split(part, sep) == [part] <==> Index(part, sep) == -1
  {
    if Index(part, sep) != -1 {
      assert |Split(part, sep)| >= 2;
    }
  }

  lemma SplitFirst(part: string, sep: string, rest: string, parts: seq<string>)
    requires sep != "" && |parts| > 0 && parts[0] == part
    ensures Split(part + sep + rest, sep) == parts <==>
            Index(part + sep, sep) == |part| && Split(rest, sep) == parts[1..]
  {
    var joined := part + sep + rest;
    FirstSeparator(part, sep, rest);
    var i := Index(joined, sep);
    var tail := joined[i + |sep|..];
    assert Split(joined, sep) == [joined[..i]] + Split(tail, sep);
    hide Split, Index;
    assert parts == [part] + parts[1..];
    if i == |part| {
      assert joined[..i] == part && tail == rest;
      SameTail(part, Split(rest, sep), parts[1..]);
    } else {
      assert ([joined[..i]] + Split(tail, sep))[0] == joined[..i] && |joined[..i]| != |part|;
    }
  }

  lemma SameTail(first: string, a: seq<string>, b: seq<string>)
    ensures [first] + a == [first] + b <==> a == b
  {
    assert ([first] + a)[1..] == a && ([first] + b)[1..] == b;
  }

  lemma SplittableTail(parts: seq<string>, sep: string)
    requires |parts| > 1
    ensures Splittable(parts, sep) <==> Index(parts[0] + sep, sep) == |parts[0]| && Splittable(parts[1..], sep)
  {
    var rest := parts[1..];
    if Index(parts[0] + sep, sep) == |parts[0]| && Splittable(rest, sep) {
      forall i | 0 <= i < |parts| - 1
        ensures Index(parts[i] + sep, sep) == |parts[i]|
      {
        if i > 0 {
          assert rest[i - 1] == parts[i];
        }
      }
    }
  }

  /** For a one-character separator: no part holds it. */
  lemma SplittableByChar(parts: seq<string>, c: char)
    requires parts != []
    ensures Splittable(parts, [c]) <==> forall i :: 0 <= i < |parts| ==> !Contains(parts[i], c)
  {
    forall i | 0 <= i < |parts|
      ensures Index(parts[i], [c]) == -1 <==> !Contains(parts[i], c)
      ensures Index(parts[i] + [c], [c]) == |parts[i]| <==> !Contains(parts[i], c)
    {
      FindChar(parts[i], c);
    }
  }

  lemma FindChar(s: string, c: char)
    ensures Index(s, [c]) == -1 <==> !Contains(s, c)
    ensures Index(s + [c], [c]) == |s| <==> !Contains(s, c)
  {
    forall i | 0 <= i < |s|
      ensures At(s, [c], i) <==> s[i] == c
      ensures At(s + [c], [c], i) <==> s[i] == c
    {
      assert s[i..i + 1] == [s[i]] && (s + [c])[i..i + 1] == [s[i]];
    }
    assert At(s + [c], [c], |s|);
  }

  /** For the separator `|||`: no part holds it, and no part but the last ends in `|`. */
  lemma SplittableByBars(parts: seq<string>)
    requires parts != []
    ensures Splittable(parts, "|||") <==>
            (forall i :: 0 <= i < |parts| ==> Index(parts[i], "|||") == -1) &&
            (forall i :: 0 <= i < |parts| - 1 ==> !HasSuffix(parts[i], "|"))
  {
    forall i | 0 <= i < |parts|
      ensures Index(parts[i] + "|||", "|||") == |parts[i]| <==>
              Index(parts[i], "|||") == -1 && !HasSuffix(parts[i], "|")
    {
      FindBars(parts[i]);
    }
  }

  lemma FindBars(s: string)
    ensures Index(s + "|||", "|||") == |s| <==> Index(s, "|||") == -1 && !HasSuffix(s, "|")
  {
    var long := s + "|||";
    assert At(long, "|||", |s|);
    if HasSuffix(s, "|") {
      assert s[|s| - 1..] == "|";
      assert long[|s| - 1..|s| + 2] == s[|s| - 1..] + "||";
      assert At(long, "|||", |s| - 1);
    }
    forall i | 0 <= i < |s|
      ensures At(long, "|||", i) ==> At(s, "|||", i) || HasSuffix(s, "|")
      ensures At(s, "|||", i) ==> At(long, "|||", i)
    {
      if At(long, "|||", i) {
        var here := long[i..i + 3];
        assert here == "|||" && here[0] == long[i] && here[1] == long[i + 1] && here[2] == long[i + 2];
        if i + 3 <= |s| {
          assert s[i..i + 3] == long[i..i + 3];
        } else {
          assert s[|s| - 1] == long[|s| - 1] == '|';
          assert s[|s| - 1..] == "|";
        }
      }
      if At(s, "|||", i) {
        assert long[i..i + 3] == s[i..i + 3];
      }
    }
  }

  // ---------------------------------------------------------------- numbers

  lemma {:induction false} DecimalShape(n: nat)
    ensures Decimal(n) != "" && forall i :: 0 <= i < |Decimal(n)| ==> '0' <= Decimal(n)[i] <= '9'
  {
    if n >= 10 {
      DecimalShape(n / 10);
    }
  }

  lemma {:induction false} DecimalInjective(m: nat, n: nat)
    requires Decimal(m) == Decimal(n)
    ensures m == n
  {
    var a, b := Decimal(m), Decimal(n);
    DigitInjective(m % 10, n % 10);
    DecimalShape(m / 10);
    DecimalShape(n / 10);
    assert a[|a| - 1] == Digit(m % 10) && b[|b| - 1] == Digit(n % 10);
    if m >= 10 && n >= 10 {
      assert a[..|a| - 1] == Decimal(m / 10) && b[..|b| - 1] == Decimal(n / 10);
      DecimalInjective(m / 10, n / 10);
    }
  }

  lemma DigitInjective(a: nat, b: nat)
    requires a < 10 && b < 10
    ensures Digit(a) == Digit(b) ==> a == b
  {
  }

  lemma DecimalIntInjective(m: int, n: int)
    requires DecimalInt(m) == DecimalInt(n)
    ensures m == n
  {
    DecimalSign(m);
    DecimalSign(n);
    hide Decimal;
    if m < 0 && n < 0 {
      assert DecimalInt(m)[1..] == Decimal(-m) && DecimalInt(n)[1..] == Decimal(-n);
      DecimalInjective(-m, -n);
    } else if m >= 0 && n >= 0 {
      DecimalInjective(m, n);
    }
  }

  lemma DecimalSign(n: int)
    ensures DecimalInt(n) != "" && (DecimalInt(n)[0] == '-' <==> n < 0)
    ensures forall i :: 0 <= i < |DecimalInt(n)| ==> DecimalInt(n)[i] == '-' || '0' <= DecimalInt(n)[i] <= '9'
  {
    DecimalShape(if n < 0 then -n else n);
    hide Decimal;
  }

  /** The number that a string of digits denotes. */
  function NumberOf(s: string): int {
    if s == "" then 0 else 10 * NumberOf(s[..|s| - 1]) + (s[|s| - 1] as int - '0' as int)
  }

  /** `%d` writes the number it was given. */
  lemma {:induction false} DecimalReads(n: nat)
    ensures NumberOf(Decimal(n)) == n
  {
    var s := Decimal(n);
    assert s[|s| - 1] as int - '0' as int == n % 10;
    if n >= 10 {
      assert s[..|s| - 1] == Decimal(n / 10);
      DecimalReads(n / 10);
    } else {
      assert s[..|s| - 1] == "";
    }
  }

  lemma JoinFour(a: string, b: string, c: string, d: string)
    ensures Join([a, b, c, d], "/") == a + "/" + b + "/" + c + "/" + d
  {
    assert [a, b, c, d][1..] == [b, c, d] && [b, c, d][1..] == [c, d] && [c, d][1..] == [d];
    assert Join([c, d], "/") == c + "/" + d;
    assert Join([b, c, d], "/") == b + "/" + (c + "/" + d);
    assert Join([a, b, c, d], "/") == a + "/" + (b + "/" + (c + "/" + d));
  }

  /** Four parts without a slash are what splitting their path gives. */
  lemma SplitFour(a: string, b: string, c: string, d: string)
    requires !Contains(a, '/') && !Contains(b, '/') && !Contains(c, '/') && !Contains(d, '/')
    ensures Split(a + "/" + b + "/" + c + "/" + d, "/") == [a, b, c, d]
  {
    var parts := [a, b, c, d];
    JoinFour(a, b, c, d);
    SplittableByChar(parts, '/');
    SplitAfterJoinIff(parts, "/");
  }
}
