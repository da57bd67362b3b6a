/** The command line of the application travels from the pod builder to the agent as pod annotations
    (pkg/controller/pod_builder.go), which the kubelet lists as key="quoted value" lines and the agent
    searches (pkg/agent/server.go). The quoting is Go's %q on newline, tab and printable ASCII. */
module Annotations {
  import opened Options
  import opened Text

  datatype Annotation = Annotation(key: string, value: string)

  const COMMAND_KEY: string := "migration.io/original-command"
  const ARGS_KEY: string := "migration.io/original-args"
  const WORKDIR_KEY: string := "migration.io/original-workdir"

  predicate Plain(s: string) {
    forall i :: 0 <= i < |s| ==> ' ' <= s[i] <= '~' || s[i] == '\n' || s[i] == '\t'
  }

  /** Annotation keys are made of letters, digits, '-', '_', '.' and '/'. */
  predicate IsKey(s: string) {
    forall i :: 0 <= i < |s| ==> KeyChar(s[i])
  }

  predicate KeyChar(c: char) {
    'a' <= c <= 'z' || 'A' <= c <= 'Z' || '0' <= c <= '9' || c == '-' || c == '_' || c == '.' || c == '/'
  }

  function Escape(c: char): string {
    match c
    case '\n' => "\\n"
    case '\t' => "\\t"
    case '"' => "\\\""
    case '\\' => "\\\\"
    case _ => [c]
  }

  function Quoted(v: string): string {
    if v == "" then "" else Quoted(v[..|v| - 1]) + Escape(v[|v| - 1])
  }

  function Line(a: Annotation): string {
    a.key + "=\"" + Quoted(a.value) + "\""
  }

  /** The annotations file. */
  function Listing(annotations: seq<Annotation>): string {
    if annotations == [] then ""
    else if |annotations| == 1 then Line(annotations[0])
    else Line(annotations[0]) + "\n" + Listing(annotations[1..])
  }

  // ---------------------------------------------------------------- extractAnnotation

  /** The number of backslashes at the end of `s`. */
  function TrailingBackslashes(s: string): nat {
    if s != "" && s[|s| - 1] == '\\' then 1 + TrailingBackslashes(s[..|s| - 1]) else 0
  }

  /** A quote that no backslash escapes. */
  predicate Closes(s: string, i: nat)
    requires i < |s|
  {
    s[i] == '"' && TrailingBackslashes(s[..i]) % 2 == 0
  }

  ghost predicate FirstClose(s: string, end: Option<nat>) {
    match end
    case None => forall i :: 0 <= i < |s| ==> !Closes(s, i)
    case Some(e) => e < |s| && Closes(s, e) && forall i :: 0 <= i < e ==> !Closes(s, i)
  }

  /** The loop that looks for the closing quote, counting backslashes backwards at every quote. */
  method FindClose(s: string) returns (end: Option<nat>)
    ensures FirstClose(s, end)
  {
    for i := 0 to |s|
      invariant forall k :: 0 <= k < i ==> !Closes(s, k)
    {
      if s[i] == '"' {
        var backslashes, j := 0, i;
        while j > 0 && s[j - 1] == '\\'
          invariant 0 <= j <= i
          invariant backslashes + TrailingBackslashes(s[..j]) == TrailingBackslashes(s[..i])
        {
          assert s[..j][..j - 1] == s[..j - 1];
          backslashes := backslashes + 1;
          j := j - 1;
        }
        assert TrailingBackslashes(s[..j]) == 0;
        if backslashes % 2 == 0 {
          return Some(i);
        }
      }
    }
    return None;
  }

  /** The four replacements, in the order of the source. */
  function Unescaped(s: string): string {
    var newlines := ReplaceAll(s, "\\n", "\n");
    var tabs := ReplaceAll(newlines, "\\t", "\t");
    var quotes := ReplaceAll(tabs, "\\\"", "\"");
    ReplaceAll(quotes, "\\\\", "\\")
  }

  /** What is read from the text after the opening quote. */
  ghost predicate Reads(tail: string, r: string) {
    (FirstClose(tail, None) && r == "") || exists end: nat :: FirstClose(tail, Some(end)) && r == Unescaped(tail[..end])
  }

  /** What extractAnnotation returns, by the positions it finds. */
  ghost predicate Extracts(annotations: string, key: string, r: string) {
    var start := Index(annotations, key + "=\"");
    if start == -1 then r == ""
    else
      Reads(annotations[start + |key| + 2..], r)
  }

  method ExtractAnnotation(annotations: string, key: string) returns (r: string)
    ensures Extracts(annotations, key, r)
  {
    hide ReplaceAll, FirstClose;
    var pattern := key + "=\"";
    var start := Index(annotations, pattern);
    if start == -1 {
      return "";
    }
    start := start + |pattern|;
    var tail := annotations[start..];
    var end := FindClose(tail);
    if end.None? {
      return "";
    }
    r := tail[..end.value];
    r := ReplaceAll(r, "\\n", "\n");
    r := ReplaceAll(r, "\\t", "\t");
    r := ReplaceAll(r, "\\\"", "\"");
    r := ReplaceAll(r, "\\\\", "\\");
  }

  // ---------------------------------------------------------------- unquoting

  /** What comes back for a stored value: an 'n' or 't' right after a backslash turns into newline or tab. */
  function Garbled(v: string): string {
    seq(|v|, i requires 0 <= i < |v| => GarbledAt(v, i))
  }

  function GarbledAt(v: string, i: nat): char
    requires i < |v|
  {
    if i > 0 && v[i - 1] == '\\' && v[i] == 'n' then '\n'
    else if i > 0 && v[i - 1] == '\\' && v[i] == 't' then '\t'
    else v[i]
  }

  /** No backslash is directly followed by 'n' or 't'. */
  predicate Faithful(v: string) {
    forall i :: 0 < i < |v| && v[i - 1] == '\\' ==> v[i] != 'n' && v[i] != 't'
  }

  lemma GarbledIff(v: string)
    ensures Garbled(v) == v <==> Faithful(v)
  {
    if Garbled(v) == v {
      forall i | 0 < i < |v| && v[i - 1] == '\\'
        ensures v[i] != 'n' && v[i] != 't'
      {
        assert Garbled(v)[i] == v[i];
      }
    }
  }

  /** How a character is written after the first `k` replacements. */
  function Token(k: nat, c: char): string {
    if k >= 1 && c == '\n' then "\n"
    else if k >= 2 && c == '\t' then "\t"
    else if k >= 3 && c == '"' then "\""
    else if k >= 4 && c == '\\' then "\\"
    else Escape(c)
  }

  /** `v` starts with a backslash and an 'n' or 't' that the first `k` replacements have made one character. */
  predicate Merged(k: nat, v: string) {
    |v| >= 2 && v[0] == '\\' && ((k >= 1 && v[1] == 'n') || (k >= 2 && v[1] == 't'))
  }

  /** The quoted value after the first `k` replacements. */
  function Partly(k: nat, v: string): string {
    if v == "" then ""
    else if Merged(k, v) then ['\\', if v[1] == 'n' then '\n' else '\t'] + Partly(k, v[2..])
    else Token(k, v[0]) + Partly(k, v[1..])
  }

  lemma Emit(c: char, rest: string, p: string, with: string)
    requires |p| == 2 && (c != p[0] || rest == "" || rest[0] != p[1])
    ensures ReplaceAll([c] + rest, p, with) == [c] + ReplaceAll(rest, p, with)
  {
    assert ([c] + rest)[1..] == rest;
  }

  lemma Hit(rest: string, p: string, with: string)
    requires |p| == 2
    ensures ReplaceAll(p + rest, p, with) == with + ReplaceAll(rest, p, with)
  {
    assert (p + rest)[2..] == rest;
  }

  /** Two characters of which neither the first nor, with what follows, the second starts the pattern. */
  lemma EmitTwo(a: char, b: char, rest: string, p: string, with: string)
    requires |p| == 2 && [a, b] != p && (b != p[0] || rest == "" || rest[0] != p[1])
    ensures ReplaceAll([a, b] + rest, p, with) == [a, b] + ReplaceAll(rest, p, with)
  {
    assert [a, b] + rest == [a] + ([b] + rest);
    Emit(a, [b] + rest, p, with);
    Emit(b, rest, p, with);
    assert [a] + ([b] + ReplaceAll(rest, p, with)) == [a, b] + ReplaceAll(rest, p, with);
  }

  /** The first character of what is left of `v`. */
  lemma PartlyHead(k: nat, v: string)
    requires k <= 3 && v != ""
    ensures Partly(k, v) != ""
    ensures Partly(k, v)[0] == 'n' <==> v[0] == 'n'
    ensures Partly(k, v)[0] == 't' <==> v[0] == 't'
    ensures k < 3 ==> Partly(k, v)[0] != '"'
  {
  }

  function Pattern(k: nat): (p: string)
    requires k < 4
    ensures |p| == 2 && p[0] == '\\' && (k < 2 ==> p[1] != '\\')
  {
    if k == 0 then "\\n" else if k == 1 then "\\t" else if k == 2 then "\\\"" else "\\\\"
  }

  function Replacement(k: nat): string
    requires k < 4
  {
    if k == 0 then "\n" else if k == 1 then "\t" else if k == 2 then "\"" else "\\"
  }

  /** The `k`-th replacement does its work on the whole value. */
  ghost predicate Replaces(k: nat, v: string)
    requires k < 4
  {
    ReplaceAll(Partly(k, v), Pattern(k), Replacement(k)) == Partly(k + 1, v)
  }

  lemma {:induction false} ReplaceStep(k: nat, v: string)
    requires k < 4
    ensures Replaces(k, v)
  {
    if v == "" {
    } else if Merged(k + 1, v) {
      hide Replaces;
      ReplaceStep(k, v[2..]);
      if Merged(k, v) {
        StepMerged(k, v);
      } else {
        StepMerges(k, v);
      }
    } else {
      ReplaceStep(k, v[1..]);
      hide ReplaceAll;
      if v[1..] != "" && k < 3 {
        PartlyHead(k, v[1..]);
      }
      ReplaceToken(k, v[0], Partly(k, v[1..]));
    }
  }

  /** A pair that an earlier replacement has merged stays. */
  lemma StepMerged(k: nat, v: string)
    requires k < 4 && Merged(k, v) && Replaces(k, v[2..])
    ensures Replaces(k, v)
  {
    hide ReplaceAll;
    EmitTwo('\\', if v[1] == 'n' then '\n' else '\t', Partly(k, v[2..]), Pattern(k), Replacement(k));
  }

  /** One character that the next one does not join. */
  lemma ReplaceToken(k: nat, c: char, rest: string)
    requires k < 4
    requires c == '\\' && k < 3 && rest != "" ==> rest[0] != Pattern(k)[1]
    ensures ReplaceAll(Token(k, c) + rest, Pattern(k), Replacement(k)) ==
            Token(k + 1, c) + ReplaceAll(rest, Pattern(k), Replacement(k))
  {
    hide ReplaceAll;
    var p, with, token := Pattern(k), Replacement(k), Token(k, c);
    if token == p {
      Hit(rest, p, with);
    } else if |token| == 2 {
      EmitTwo(token[0], token[1], rest, p, with);
      assert token == [token[0], token[1]];
    } else {
      Emit(c, rest, p, with);
    }
  }

  /** The pattern is found in the second half of an escaped backslash and the letter after it. */
  lemma StepMerges(k: nat, v: string)
    requires k < 2 && Merged(k + 1, v) && !Merged(k, v) && Replaces(k, v[2..])
    ensures Replaces(k, v)
  {
    var p, with, rest := Pattern(k), Replacement(k), Partly(k, v[2..]);
    WrittenApart(k, v);
    WrittenTogether(k, v);
    hide ReplaceAll, Partly, Pattern, Replacement, Merged;
    Emit('\\', p + rest, p, with);
    Hit(rest, p, with);
  }

  lemma WrittenApart(k: nat, v: string)
    requires k < 2 && Merged(k + 1, v) && !Merged(k, v)
    ensures Partly(k, v) == ['\\'] + (Pattern(k) + Partly(k, v[2..]))
  {
    assert v[1..][1..] == v[2..];
    assert Partly(k, v[1..]) == [v[1]] + Partly(k, v[2..]);
  }

  lemma WrittenTogether(k: nat, v: string)
    requires k < 2 && Merged(k + 1, v) && !Merged(k, v)
    ensures Partly(k + 1, v) == ['\\'] + (Replacement(k) + Partly(k + 1, v[2..]))
  {
  }

  lemma {:induction false} PartlyNothing(v: string)
    ensures Partly(0, v) == Quoted(v)
  {
    if v != "" {
      PartlyNothing(v[1..]);
      QuotedFront(v);
    }
  }

  lemma {:induction false} QuotedFront(v: string)
    requires v != ""
    ensures Quoted(v) == Escape(v[0]) + Quoted(v[1..])
  {
    if |v| > 1 {
      QuotedFront(v[..|v| - 1]);
      assert v[..|v| - 1][1..] == v[1..][..|v| - 2];
    } else {
      assert v[..0] == "" && v[1..] == "";
    }
  }

  lemma {:induction false} PartlyAll(v: string)
    ensures Partly(4, v) == Garbled(v)
  {
    if v == "" {
    } else if Merged(4, v) {
      PartlyAll(v[2..]);
      GarbledTail(v, 2);
      assert Garbled(v) == Garbled(v)[..2] + Garbled(v)[2..];
      assert Garbled(v)[..2] == ['\\', if v[1] == 'n' then '\n' else '\t'];
    } else {
      PartlyAll(v[1..]);
      GarbledTail(v, 1);
      assert Garbled(v) == [v[0]] + Garbled(v)[1..];
    }
  }

  lemma GarbledTail(v: string, n: nat)
    requires n <= |v| && (n < |v| && n > 0 && v[n - 1] == '\\' ==> v[n] != 'n' && v[n] != 't')
    ensures Garbled(v)[n..] == Garbled(v[n..])
  {
    forall i | 0 <= i < |v| - n
      ensures Garbled(v)[n..][i] == Garbled(v[n..])[i]
    {
    }
  }

  /** The four replacements applied to a quoted value. */
  lemma UnescapeQuoted(v: string)
    ensures Unescaped(Quoted(v)) == Garbled(v)
  {
    hide ReplaceAll, Partly, Garbled;
    PartlyNothing(v);
    ReplaceStep(0, v);
    ReplaceStep(1, v);
    ReplaceStep(2, v);
    ReplaceStep(3, v);
    PartlyAll(v);
  }

  // ---------------------------------------------------------------- the closing quote

  lemma OneMore(s: string)
    ensures TrailingBackslashes(s + "\\") == TrailingBackslashes(s) + 1
  {
    assert (s + "\\")[..|s|] == s;
  }

  lemma {:induction false} QuotedIsBalanced(v: string)
    ensures TrailingBackslashes(Quoted(v)) % 2 == 0
  {
    if v != "" {
      QuotedIsBalanced(v[..|v| - 1]);
      hide TrailingBackslashes;
      Balanced(Quoted(v[..|v| - 1]), v[|v| - 1]);
    }
  }

  lemma Balanced(s: string, c: char)
    requires TrailingBackslashes(s) % 2 == 0
    ensures TrailingBackslashes(s + Escape(c)) % 2 == 0
  {
    if c == '\\' {
      hide TrailingBackslashes;
      assert s + Escape(c) == s + "\\" + "\\";
      OneMore(s + "\\");
      OneMore(s);
    } else {
      EscapeShape(c);
      hide Escape;
      assert (s + Escape(c))[|s + Escape(c)| - 1] == Escape(c)[|Escape(c)| - 1];
    }
  }

  lemma EscapeShape(c: char)
    ensures 1 <= |Escape(c)| <= 2
    ensures |Escape(c)| == 1 ==> Escape(c) == [c] && c != '\\'
    ensures |Escape(c)| == 2 ==>
              Escape(c)[0] == '\\' && Escape(c)[1] in ['n', 't', '"', '\\']
    ensures Escape(c)[|Escape(c)| - 1] == '\\' <==> c == '\\'
  {
  }

  /** Inside a quoted value every quote is escaped. */
  lemma {:induction false} QuotesEscaped(v: string, i: nat)
    requires i < |Quoted(v)| && Quoted(v)[i] == '"'
    ensures i > 0 && Quoted(v)[i - 1] == '\\' && TrailingBackslashes(Quoted(v)[..i]) % 2 == 1
  {
    hide TrailingBackslashes;
    var init := Quoted(v[..|v| - 1]);
    if i < |init| {
      QuotesEscaped(v[..|v| - 1], i);
      assert Quoted(v)[..i] == init[..i];
    } else {
      QuotedIsBalanced(v[..|v| - 1]);
      assert Quoted(v)[..i] == init + "\\";
      OneMore(init);
    }
  }

  lemma CloseIs(v: string, rest: string, end: Option<nat>)
    requires FirstClose(Quoted(v) + "\"" + rest, end)
    ensures end == Some(|Quoted(v)|)
  {
    var q := Quoted(v);
    var s := q + "\"" + rest;
    QuotedIsBalanced(v);
    assert s[..|q|] == q;
    assert Closes(s, |q|);
    if end.Some? && end.value < |q| {
      assert s[..end.value] == q[..end.value];
      QuotesEscaped(v, end.value);
    }
  }

  // ---------------------------------------------------------------- the search

  lemma AtChar(s: string, p: string, i: nat, k: nat)
    requires At(s, p, i) && k < |p|
    ensures s[i + k] == p[k]
  {
    assert s[i..i + |p|][k] == s[i + k];
  }

  /** The key pattern matches in a line exactly at the key or at the end of the value. */
  lemma LineMatches(a: Annotation, key: string, p: nat)
    requires IsKey(a.key) && IsKey(key) && At(Line(a), key + "=\"", p)
    ensures (p + |key| == |a.key| && HasSuffix(a.key, key)) ||
            (p + |key| + 2 == |Line(a)| && HasSuffix(Quoted(a.value), key + "="))
  {
    var line, q, open := Line(a), Quoted(a.value), |a.key| + 1;
    var close := p + |key| + 1;
    AtChar(line, key + "=\"", p, |key|);
    AtChar(line, key + "=\"", p, |key| + 1);
    if close < open {
      assert false;
    } else if close == open {
      forall k | 0 <= k < |key|
        ensures a.key[p + k] == key[k]
      {
        AtChar(line, key + "=\"", p, k);
      }
      assert a.key[p..] == key;
    } else if close < |line| - 1 {
      assert line[close] == q[close - open - 1];
      QuotesEscaped(a.value, close - open - 1);
      assert false;
    } else {
      EndMatches(a, key, p);
    }
  }

  lemma EndMatches(a: Annotation, key: string, p: nat)
    requires IsKey(key) && At(Line(a), key + "=\"", p) && p + |key| + 2 == |Line(a)| && p + |key| > |a.key|
    ensures HasSuffix(Quoted(a.value), key + "=")
  {
    hide Quoted;
    var line, q, open := Line(a), Quoted(a.value), |a.key| + 1;
    assert line[open] == '"';
    if p <= open {
      AtChar(line, key + "=\"", p, open - p);
      assert false;
    }
    forall k | 0 <= k <= |key|
      ensures q[p - open - 1 + k] == (key + "=")[k]
    {
      AtChar(line, key + "=\"", p, k);
    }
    assert q[p - open - 1..] == key + "=";
  }

  /** The line is passed over by a search for `key`. */
  ghost predicate Passed(a: Annotation, key: string) {
    !HasSuffix(a.key, key) && !HasSuffix(Quoted(a.value), key + "=")
  }

  lemma SearchStaysInLine(a: Annotation, key: string, rest: string, p: nat)
    requires IsKey(key) && p <= |Line(a)| && At(Line(a) + "\n" + rest, key + "=\"", p)
    ensures At(Line(a), key + "=\"", p)
  {
    var line, pattern := Line(a), key + "=\"";
    var s := line + "\n" + rest;
    assert s[|line|] == '\n';
    assert forall k :: 0 <= k < |key| ==> KeyChar(key[k]);
    assert forall k :: 0 <= k < |pattern| ==> pattern[k] != '\n';
    if p + |pattern| > |line| {
      AtChar(s, pattern, p, |line| - p);
      assert false;
    }
    assert s[p..p + |pattern|] == line[p..p + |pattern|];
  }

  /** Passed lines do not change the result of the search, apart from its position. */
  lemma SearchSkips(a: Annotation, key: string, rest: string)
    requires IsKey(a.key) && IsKey(key) && Passed(a, key)
    ensures var i := Index(rest, key + "=\"");
            Index(Line(a) + "\n" + rest, key + "=\"") == if i == -1 then -1 else |Line(a)| + 1 + i
  {
    hide Index, Line, IsKey, At;
    var line, pattern := Line(a), key + "=\"";
    var s := line + "\n" + rest;
    forall p | 0 <= p <= |line|
      ensures !At(s, pattern, p)
    {
      if At(s, pattern, p) {
        SearchStaysInLine(a, key, rest, p);
        LineMatches(a, key, p);
      }
    }
    forall p: int | 0 <= p
      ensures At(s, pattern, |line| + 1 + p) == At(rest, pattern, p)
    {
      AtBehind(line + "\n", rest, pattern, p);
    }
    SameFirst(s, rest, pattern, |line| + 1);
  }

  lemma AtBehind(front: string, rest: string, pattern: string, p: nat)
    ensures At(front + rest, pattern, |front| + p) == At(rest, pattern, p)
  {
    if p + |pattern| <= |rest| {
      assert (front + rest)[|front| + p..|front| + p + |pattern|] == rest[p..p + |pattern|];
    }
  }

  lemma SameFirst(long: string, short: string, p: string, shift: nat)
    requires forall i :: 0 <= i < shift ==> !At(long, p, i)
    requires forall i :: 0 <= i ==> At(long, p, shift + i) == At(short, p, i)
    ensures Index(long, p) == if Index(short, p) == -1 then -1 else shift + Index(short, p)
  {
    var j := Index(short, p);
    forall i | 0 <= i && (j == -1 || i < shift + j)
      ensures !At(long, p, i)
    {
      if i >= shift {
        assert At(long, p, shift + (i - shift)) == At(short, p, i - shift);
      }
    }
    if j != -1 {
      assert At(long, p, shift + j) == At(short, p, j);
    }
  }

  // ---------------------------------------------------------------- what the agent reads

  ghost predicate AllKeys(annotations: seq<Annotation>) {
    forall i :: 0 <= i < |annotations| ==> IsKey(annotations[i].key) && Plain(annotations[i].value)
  }

  /** The text after the first line. */
  function AfterLine(annotations: seq<Annotation>): string
    requires annotations != []
  {
    if |annotations| == 1 then "" else "\n" + Listing(annotations[1..])
  }

  lemma ListingFront(annotations: seq<Annotation>)
    requires annotations != []
    ensures Listing(annotations) == Line(annotations[0]) + AfterLine(annotations)
  {
  }

  /** A search that hits reads the text after the hit. */
  lemma ExtractsAt(s: string, key: string, tail: string, r: string)
    requires Index(s, key + "=\"") != -1 && s[Index(s, key + "=\"") + |key| + 2..] == tail
    ensures Extracts(s, key, r) <==> Reads(tail, r)
  {
  }

  lemma ExtractSkips(a: Annotation, key: string, rest: string, r: string)
    requires IsKey(a.key) && IsKey(key) && Passed(a, key) && Extracts(Line(a) + "\n" + rest, key, r)
    ensures Extracts(rest, key, r)
  {
    SearchSkips(a, key, rest);
    var line, i, n := Line(a) + "\n", Index(rest, key + "=\""), |key| + 2;
    if i != -1 {
      hide Find, Reads, Line, Passed, IsKey, Extracts;
      assert (line + rest)[|line| + i + n..] == rest[i + n..];
      ExtractsAt(line + rest, key, rest[i + n..], r);
      ExtractsAt(rest, key, rest[i + n..], r);
    }
  }

  /** Where the first line can match. */
  lemma MatchesFirstLine(annotations: seq<Annotation>, key: string, p: nat)
    requires annotations != [] && AllKeys(annotations) && IsKey(key)
    requires p < |Line(annotations[0])| && At(Listing(annotations), key + "=\"", p)
    ensures var a := annotations[0];
            (p + |key| == |a.key| && HasSuffix(a.key, key)) || p + |key| + 2 == |Line(a)|
  {
    var a := annotations[0];
    if |annotations| > 1 {
      SearchStaysInLine(a, key, Listing(annotations[1..]), p);
    }
    LineMatches(a, key, p);
  }

  lemma MatchesKey(a: Annotation, key: string, rest: string)
    requires HasSuffix(a.key, key)
    ensures At(Line(a) + rest, key + "=\"", |a.key| - |key|)
  {
    hide Quoted;
    var p := |a.key| - |key|;
    assert (Line(a) + rest)[p..p + |key| + 2] == a.key[p..] + "=\"";
  }

  lemma MatchesEnd(a: Annotation, key: string, rest: string)
    requires HasSuffix(Quoted(a.value), key + "=")
    ensures At(Line(a) + rest, key + "=\"", |Line(a)| - |key| - 2)
  {
    hide Quoted;
    var q, p := Quoted(a.value), |Line(a)| - |key| - 2;
    assert (Line(a) + rest)[p..p + |key| + 2] == q[|q| - |key| - 1..] + "\"";
    assert q[|q| - |key| - 1..] == key + "=";
  }

  lemma FirstMatch(annotations: seq<Annotation>, key: string)
    requires annotations != [] && AllKeys(annotations) && IsKey(key)
    ensures var a := annotations[0]; var i := Index(Listing(annotations), key + "=\"");
            (HasSuffix(a.key, key) ==> 0 <= i == |a.key| - |key|) &&
            (!HasSuffix(a.key, key) && HasSuffix(Quoted(a.value), key + "=") ==> 0 <= i == |Line(a)| - |key| - 2)
  {
    var a, s, pattern := annotations[0], Listing(annotations), key + "=\"";
    ListingFront(annotations);
    forall p: nat | p < |Line(a)| && At(s, pattern, p)
      ensures (p + |key| == |a.key| && HasSuffix(a.key, key)) || p + |key| + 2 == |Line(a)|
    {
      MatchesFirstLine(annotations, key, p);
    }
    if HasSuffix(a.key, key) {
      MatchesKey(a, key, AfterLine(annotations));
    } else if HasSuffix(Quoted(a.value), key + "=") {
      MatchesEnd(a, key, AfterLine(annotations));
    }
    hide Quoted, IsKey, Listing, At, Find, HasSuffix;
  }

  /** The value of the first line whose key ends with the wanted one, if no line before it misleads. */
  lemma {:induction false} ReadsValue(annotations: seq<Annotation>, key: string, j: nat, r: string)
    requires AllKeys(annotations) && IsKey(key) && j < |annotations| && HasSuffix(annotations[j].key, key)
    requires forall i :: 0 <= i < j ==> Passed(annotations[i], key)
    requires Extracts(Listing(annotations), key, r)
    ensures r == Garbled(annotations[j].value)
  {
    hide Find, Reads, Quoted, Garbled, At, Extracts, HasSuffix, IsKey, Passed;
    if j > 0 {
      ExtractSkips(annotations[0], key, Listing(annotations[1..]), r);
      ReadsValue(annotations[1..], key, j - 1, r);
    } else {
      var a, s := annotations[0], Listing(annotations);
      FirstMatch(annotations, key);
      ListingFront(annotations);
      var tail := s[|a.key| + 2..];
      ExtractsAt(s, key, tail, r);
      assert tail == Quoted(a.value) + "\"" + AfterLine(annotations);
      ReadsQuoted(a.value, AfterLine(annotations), tail, r);
    }
  }

  lemma ReadsQuoted(v: string, rest: string, tail: string, r: string)
    requires tail == Quoted(v) + "\"" + rest && Reads(tail, r)
    ensures r == Garbled(v)
  {
    hide Unescaped, Garbled, Quoted;
    if FirstClose(tail, None) {
      CloseIs(v, rest, None);
    } else {
      var end: nat :| FirstClose(tail, Some(end)) && r == Unescaped(tail[..end]);
      CloseIs(v, rest, Some(end));
      assert tail[..end] == Quoted(v);
      UnescapeQuoted(v);
    }
  }

  /** Nothing, if no key ends with the wanted one and no value ends like it. */
  lemma {:induction false} ReadsNothing(annotations: seq<Annotation>, key: string, r: string)
    requires AllKeys(annotations) && IsKey(key) && Extracts(Listing(annotations), key, r)
    requires forall i :: 0 <= i < |annotations| ==> Passed(annotations[i], key)
    ensures r == ""
  {
    if |annotations| > 1 {
      ExtractSkips(annotations[0], key, Listing(annotations[1..]), r);
      ReadsNothing(annotations[1..], key, r);
    } else if |annotations| == 1 {
      var s, pattern := Listing(annotations), key + "=\"";
      if At(s, pattern, Index(s, pattern)) {
        LineMatches(annotations[0], key, Index(s, pattern));
      }
    }
  }

  /** A value that ends with the key and '=' captures the search: the agent reads the name of the next key. */
  lemma {:induction false} ReadsWrong(annotations: seq<Annotation>, key: string, j: nat, r: string)
    requires AllKeys(annotations) && IsKey(key) && j < |annotations|
    requires !HasSuffix(annotations[j].key, key) && HasSuffix(Quoted(annotations[j].value), key + "=")
    requires forall i :: 0 <= i < j ==> Passed(annotations[i], key)
    requires Extracts(Listing(annotations), key, r)
    ensures r == if j + 1 < |annotations| then "\n" + annotations[j + 1].key + "=" else ""
  {
    hide Find, Quoted, At, IsKey, Extracts, Reads;
    if j > 0 {
      ExtractSkips(annotations[0], key, Listing(annotations[1..]), r);
      ReadsWrong(annotations[1..], key, j - 1, r);
    } else {
      FirstMatch(annotations, key);
      ListingFront(annotations);
      ExtractsAt(Listing(annotations), key, AfterLine(annotations), r);
      ReadsAfter(annotations, r);
    }
  }

  lemma ReadsAfter(annotations: seq<Annotation>, r: string)
    requires annotations != [] && AllKeys(annotations) && Reads(AfterLine(annotations), r)
    ensures r == if 1 < |annotations| then "\n" + annotations[1].key + "=" else ""
  {
    if |annotations| > 1 {
      var rest := NextLine(annotations);
      hide AfterLine, Listing, IsKey, Reads;
      ReadsNextKey(annotations[1], rest, AfterLine(annotations), r);
    }
  }

  /** The text after a line starts with the next key. */
  lemma NextLine(annotations: seq<Annotation>) returns (rest: string)
    requires |annotations| > 1
    ensures AfterLine(annotations) == "\n" + (annotations[1].key + "=\"" + rest)
  {
    var next := annotations[1..];
    ListingFront(next);
    hide Listing, Quoted;
    rest := Quoted(next[0].value) + "\"" + AfterLine(next);
    SameText(next[0].key, Quoted(next[0].value), AfterLine(next));
  }

  lemma SameText(key: string, quoted: string, rest: string)
    ensures key + "=\"" + quoted + "\"" + rest == key + "=\"" + (quoted + "\"" + rest)
  {
  }

  lemma ReadsNextKey(a: Annotation, rest: string, tail: string, r: string)
    requires IsKey(a.key) && tail == "\n" + (a.key + "=\"" + rest) && Reads(tail, r)
    ensures r == "\n" + a.key + "="
  {
    var name := "\n" + a.key + "=";
    assert tail[..|name|] == name && tail[|name|] == '"';
    NameIsPlain(a.key);
    NoEscapes(name);
    assert Closes(tail, |name|);
    assert forall i :: 0 <= i < |name| ==> tail[i] == name[i];
    hide Unescaped;
    NoBackslash(name);
  }

  lemma NameIsPlain(key: string)
    requires IsKey(key)
    ensures var name := "\n" + key + "="; forall i :: 0 <= i < |name| ==> name[i] != '"' && name[i] != '\\'
  {
  }

  lemma NoEscapes(s: string)
    requires forall i :: 0 <= i < |s| ==> s[i] != '"' && s[i] != '\\'
    ensures TrailingBackslashes(s) == 0
  {
  }

  lemma NoBackslash(s: string)
    requires !Contains(s, '\\')
    ensures Unescaped(s) == s
  {
    ReplaceNone(s, "\\n", "\n");
    ReplaceNone(s, "\\t", "\t");
    ReplaceNone(s, "\\\"", "\"");
    ReplaceNone(s, "\\\\", "\\");
  }

  lemma {:induction false} ReplaceNone(s: string, p: string, with: string)
    requires p != "" && !Contains(s, p[0])
    ensures ReplaceAll(s, p, with) == s
  {
    if s != "" {
      assert forall i :: 0 <= i < |s[1..]| ==> s[1..][i] == s[i + 1];
      ReplaceNone(s[1..], p, with);
    }
  }

  // ---------------------------------------------------------------- the command line, end to end

  datatype CommandLine = CommandLine(command: seq<string>, args: seq<string>, workdir: string)

  /** The annotations after buildBasePod has saved the container's command line. */
  function Saved(annotations: map<string, string>, c: CommandLine): map<string, string> {
    if c.command == [] && c.args == [] then annotations
    else
      var commanded := if c.command == [] then annotations else annotations[COMMAND_KEY := Join(c.command, ",")];
      var argued := if c.args == [] then commanded else commanded[ARGS_KEY := Join(c.args, "|||")];
      if c.workdir == "" then argued else argued[WORKDIR_KEY := c.workdir]
  }

  /** The concatenating loops. */
  method Serialize(parts: seq<string>, sep: string) returns (s: string)
    ensures s == Join(parts, sep)
  {
    s := "";
    for i := 0 to |parts|
      invariant s == Join(parts[..i], sep)
    {
      if i > 0 {
        s := s + sep;
        JoinSnoc(parts[..i], parts[i], sep);
      }
      s := s + parts[i];
      assert parts[..i + 1] == parts[..i] + [parts[i]];
    }
    assert parts[..|parts|] == parts;
  }

  method SaveCommandLine(annotations: map<string, string>, c: CommandLine) returns (saved: map<string, string>)
    ensures saved == Saved(annotations, c)
    ensures c.command == [] && c.args == [] ==> saved == annotations
    ensures c.command != [] ==> COMMAND_KEY in saved && saved[COMMAND_KEY] == Join(c.command, ",")
    ensures c.args != [] ==> ARGS_KEY in saved && saved[ARGS_KEY] == Join(c.args, "|||")
    ensures (c.command != [] || c.args != []) && c.workdir != "" ==>
              WORKDIR_KEY in saved && saved[WORKDIR_KEY] == c.workdir
    ensures forall k :: k !in {COMMAND_KEY, ARGS_KEY, WORKDIR_KEY} ==>
                          (k in saved <==> k in annotations) && (k in saved ==> saved[k] == annotations[k])
  {
    assert |COMMAND_KEY| != |ARGS_KEY| && |ARGS_KEY| != |WORKDIR_KEY|;
    saved := annotations;
    if |c.command| > 0 || |c.args| > 0 {
      if |c.command| > 0 {
        var s := Serialize(c.command, ",");
        saved := saved[COMMAND_KEY := s];
      }
      if |c.args| > 0 {
        var s := Serialize(c.args, "|||");
        saved := saved[ARGS_KEY := s];
      }
      if c.workdir != "" {
        saved := saved[WORKDIR_KEY := c.workdir];
      }
    }
  }

  function DecodedList(s: string, sep: string): seq<string>
    requires sep != ""
  {
    if s == "" then [] else Split(s, sep)
  }

  /** What startUserProcess makes of the three strings; no command means that no process is started. */
  function Decoded(command: string, args: string, workdir: string): Option<CommandLine> {
    if command == "" then None
    else Some(CommandLine(Split(command, ","), DecodedList(args, "|||"), workdir))
  }

  ghost predicate Parses(listing: string, r: Option<CommandLine>) {
    exists command, args, workdir ::
      Extracts(listing, COMMAND_KEY, command) && Extracts(listing, ARGS_KEY, args) &&
      Extracts(listing, WORKDIR_KEY, workdir) && r == Decoded(command, args, workdir)
  }

  method ParseCommandLine(listing: string) returns (r: Option<CommandLine>)
    ensures Parses(listing, r)
  {
    hide Extracts, Decoded;
    var command := ExtractAnnotation(listing, COMMAND_KEY);
    var args := ExtractAnnotation(listing, ARGS_KEY);
    var workdir := ExtractAnnotation(listing, WORKDIR_KEY);
    r := Decoded(command, args, workdir);
  }

  /** A listing of the annotations, in any order. */
  ghost predicate Lists(listed: seq<Annotation>, annotations: map<string, string>) {
    (forall i :: 0 <= i < |listed| ==> listed[i].key in annotations && annotations[listed[i].key] == listed[i].value) &&
    (forall k :: k in annotations ==> exists i :: 0 <= i < |listed| && listed[i].key == k)
  }

  /** No other key ends with the wanted one, and no other value ends with it and '='. */
  ghost predicate Unambiguous(listed: seq<Annotation>, key: string) {
    forall i :: 0 <= i < |listed| && listed[i].key != key ==>
      !HasSuffix(listed[i].key, key) && !HasSuffix(listed[i].value, key + "=")
  }

  function Lookup(annotations: map<string, string>, key: string): string {
    if key in annotations then annotations[key] else ""
  }

  lemma EndsWithChar(s: string, w: string, c: char)
    ensures HasSuffix(s + [c], w + [c]) <==> HasSuffix(s, w)
  {
    if |w| <= |s| {
      assert (s + [c])[|s| - |w|..] == s[|s| - |w|..] + [c];
      if HasSuffix(s + [c], w + [c]) {
        assert (s[|s| - |w|..] + [c])[..|w|] == (w + [c])[..|w|];
      }
    }
  }

  /** A search text that starts with neither 'n' nor 't' cannot start inside an escape. */
  lemma {:induction false} QuotedEnds(v: string, w: string)
    requires w != "" && w[0] != 'n' && w[0] != 't' && forall i :: 0 <= i < |w| ==> KeyChar(w[i]) || w[i] == '='
    ensures HasSuffix(Quoted(v), w) <==> HasSuffix(v, w)
  {
    if v != "" {
      var v', w', c, d := v[..|v| - 1], w[..|w| - 1], v[|v| - 1], w[|w| - 1];
      var q := Quoted(v');
      assert v == v' + [c] && w == w' + [d] && Quoted(v) == q + Escape(c);
      hide HasSuffix, Quoted;
      if |Escape(c)| == 2 {
        assert c != d;
        LastChar(v, w);
        EscapeEnds(q, c, w);
      } else if c != d {
        LastChar(v, w);
        LastChar(q + [c], w);
      } else {
        EndsWithChar(v', w', c);
        EndsWithChar(q, w', c);
        if w' == "" {
          EmptySuffix(v');
          EmptySuffix(q);
        } else {
          QuotedEnds(v', w');
        }
      }
    }
  }

  lemma EmptySuffix(s: string)
    ensures HasSuffix(s, "")
  {
  }

  lemma LastChar(s: string, w: string)
    requires s != "" && w != "" && s[|s| - 1] != w[|w| - 1]
    ensures !HasSuffix(s, w)
  {
  }

  lemma EscapeEnds(s: string, c: char, w: string)
    requires w != "" && w[0] != 'n' && w[0] != 't' && |Escape(c)| == 2
    requires forall i :: 0 <= i < |w| ==> w[i] != '\\' && w[i] != '"'
    ensures !HasSuffix(s + Escape(c), w)
  {
    EscapeShape(c);
    var t := s + Escape(c);
    assert t[|t| - 1] == Escape(c)[1] && t[|t| - 2] == '\\';
    hide Escape;
    if |w| == 1 {
      LastChar(t, w);
    } else if HasSuffix(t, w) {
      AtChar(t, w, |t| - |w|, |w| - 2);
    }
  }

  /** The agent reads the stored value, garbled, or nothing when there is none. */
  lemma ReadsStored(listed: seq<Annotation>, annotations: map<string, string>, key: string, r: string)
    requires Lists(listed, annotations) && AllKeys(listed) && Unambiguous(listed, key)
    requires IsKey(key) && key != "" && key[0] != 'n' && key[0] != 't'
    requires Extracts(Listing(listed), key, r)
    ensures r == Garbled(Lookup(annotations, key))
  {
    hide Extracts, HasSuffix, Quoted;
    forall i | 0 <= i < |listed| && listed[i].key != key
      ensures Passed(listed[i], key)
    {
      QuotedEnds(listed[i].value, key + "=");
    }
    if key in annotations {
      var j := FirstListed(listed, annotations, key);
      assert HasSuffix(key, key) by {
        WholeSuffix(key);
      }
      ReadsValue(listed, key, j, r);
    } else {
      ReadsNothing(listed, key, r);
      assert Garbled("") == "";
    }
  }

  lemma WholeSuffix(s: string)
    ensures HasSuffix(s, s)
  {
    assert s[0..|s|] == s;
  }

  lemma FirstListed(listed: seq<Annotation>, annotations: map<string, string>, key: string) returns (j: nat)
    requires Lists(listed, annotations) && key in annotations
    ensures j < |listed| && listed[j] == Annotation(key, annotations[key])
    ensures forall i :: 0 <= i < j ==> listed[i].key != key
  {
    j := 0;
    var found: nat :| found < |listed| && listed[found].key == key;
    while listed[j].key != key
      invariant j <= found && forall i :: 0 <= i < j ==> listed[i].key != key
      decreases found - j
    {
      j := j + 1;
    }
  }

  /** What survives: no list that reads as missing, no separator in the wrong place, nothing garbled. */
  predicate Carried(parts: seq<string>, sep: string) {
    parts == [] || (parts != [""] && Splittable(parts, sep) && Faithful(Join(parts, sep)))
  }

  lemma CarriedIff(parts: seq<string>, sep: string, got: string)
    requires sep != "" && got == Garbled(Join(parts, sep))
    ensures DecodedList(got, sep) == parts <==> Carried(parts, sep)
  {
    if parts != [] {
      var joined := Join(parts, sep);
      GarbledIff(joined);
      SplitAfterJoinIff(parts, sep);
      assert |got| == |joined|;
      if got != "" {
        JoinAfterSplit(got, sep);
      }
    }
  }

  /** The command line is saved, listed without ambiguity among other annotations, and read back as `r`. */
  ghost predicate Travels(c: CommandLine, before: map<string, string>, listed: seq<Annotation>,
                          r: Option<CommandLine>)
  {
    COMMAND_KEY !in before && ARGS_KEY !in before && WORKDIR_KEY !in before &&
    Lists(listed, Saved(before, c)) && AllKeys(listed) &&
    Unambiguous(listed, COMMAND_KEY) && Unambiguous(listed, ARGS_KEY) && Unambiguous(listed, WORKDIR_KEY) &&
    Parses(Listing(listed), r)
  }

  /** A container's command line reaches the agent unchanged if and only if it has a command and each of its three
      parts survives. A container that sets only arguments is never started: they are saved, its own command line is
      replaced, and the agent finds no command. */
  lemma CommandLineSurvivesIff(c: CommandLine, before: map<string, string>, listed: seq<Annotation>,
                               r: Option<CommandLine>)
    ensures Travels(c, before, listed, r) ==>
              (r == Some(c) <==>
               c.command != [] && Carried(c.command, ",") && Carried(c.args, "|||") && Faithful(c.workdir)) &&
              (c.command == [] ==> r == None)
  {
    if Travels(c, before, listed, r) {
      TravelsIff(c, before, listed, r);
    }
  }

  /** There is always something to read, and a lone command does travel. */
  lemma ExtractsSomething(s: string, key: string) returns (r: string)
    ensures Extracts(s, key, r)
  {
    var start := Index(s, key + "=\"");
    if start == -1 {
      return "";
    }
    var tail := s[start + |key| + 2..];
    for end := 0 to |tail|
      invariant forall i :: 0 <= i < end ==> !Closes(tail, i)
    {
      if Closes(tail, end) {
        assert FirstClose(tail, Some(end));
        return Unescaped(tail[..end]);
      }
    }
    assert FirstClose(tail, None);
    return "";
  }

  lemma ParsesSomething(listing: string) returns (r: Option<CommandLine>)
    ensures Parses(listing, r)
  {
    hide Extracts, Decoded;
    var command := ExtractsSomething(listing, COMMAND_KEY);
    var args := ExtractsSomething(listing, ARGS_KEY);
    var workdir := ExtractsSomething(listing, WORKDIR_KEY);
    r := Decoded(command, args, workdir);
  }

  lemma SomethingTravels() returns (c: CommandLine, listed: seq<Annotation>, r: Option<CommandLine>)
    ensures Travels(c, map[], listed, r)
  {
    c, listed := CommandLine(["a"], [], ""), [Annotation(COMMAND_KEY, "a")];
    TheKeys();
    OtherEndings();
    hide Parses, Listing, IsKey, HasSuffix;
    r := ParsesSomething(Listing(listed));
    assert Saved(map[], c) == map[COMMAND_KEY := "a"];
    assert listed[0].key == COMMAND_KEY;
  }

  /** A container that sets only arguments: the agent reads no command, so nothing is started. */
  lemma ArgsOnlyIsLost() returns (c: CommandLine, listed: seq<Annotation>, r: Option<CommandLine>)
    ensures c == CommandLine([], ["a"], "") && Travels(c, map[], listed, r) && r == None
  {
    c, listed := CommandLine([], ["a"], ""), [Annotation(ARGS_KEY, "a")];
    TheKeys();
    ArgsEndings();
    hide Parses, Listing, IsKey, HasSuffix;
    r := ParsesSomething(Listing(listed));
    assert Saved(map[], c) == map[ARGS_KEY := "a"];
    assert listed[0].key == ARGS_KEY;
    assert Travels(c, map[], listed, r);
    TravelsIff(c, map[], listed, r);
  }

  lemma ArgsEndings()
    ensures !HasSuffix(ARGS_KEY, COMMAND_KEY) && !HasSuffix("a", COMMAND_KEY + "=")
    ensures !HasSuffix(ARGS_KEY, WORKDIR_KEY) && !HasSuffix("a", WORKDIR_KEY + "=")
  {
    LastChar(ARGS_KEY, COMMAND_KEY);
    LastChar(ARGS_KEY, WORKDIR_KEY);
  }

  lemma OtherEndings()
    ensures !HasSuffix(COMMAND_KEY, ARGS_KEY) && !HasSuffix("a", ARGS_KEY + "=")
    ensures !HasSuffix(COMMAND_KEY, WORKDIR_KEY) && !HasSuffix("a", WORKDIR_KEY + "=")
  {
    LastChar(COMMAND_KEY, ARGS_KEY);
    LastChar(COMMAND_KEY, WORKDIR_KEY);
  }

  lemma TravelsIff(c: CommandLine, before: map<string, string>, listed: seq<Annotation>, r: Option<CommandLine>)
    requires Travels(c, before, listed, r)
    ensures r == Some(c) <==>
            c.command != [] && Carried(c.command, ",") && Carried(c.args, "|||") && Faithful(c.workdir)
    ensures c.command == [] ==> r == None
  {
    hide Extracts, Carried, Faithful, Lists, AllKeys, Unambiguous, Saved, Listing, Decoded, Lookup;
    var s := Listing(listed);
    var command, args, workdir :| Extracts(s, COMMAND_KEY, command) && Extracts(s, ARGS_KEY, args) &&
                                  Extracts(s, WORKDIR_KEY, workdir) && r == Decoded(command, args, workdir);
    LookupSaved(before, c);
    TheKeys();
    hide IsKey, Garbled;
    ReadsStored(listed, Saved(before, c), COMMAND_KEY, command);
    if c.command == [] {
      DecodedNothing(c, command, args, workdir);
    } else {
      ReadsStored(listed, Saved(before, c), ARGS_KEY, args);
      ReadsStored(listed, Saved(before, c), WORKDIR_KEY, workdir);
      DecodedIff(c, command, args, workdir);
    }
  }

  lemma DecodedNothing(c: CommandLine, command: string, args: string, workdir: string)
    requires c.command == [] && command == Garbled(Join(c.command, ","))
    ensures Decoded(command, args, workdir) == None
  {
  }

  lemma TheKeys()
    ensures IsKey(COMMAND_KEY) && IsKey(ARGS_KEY) && IsKey(WORKDIR_KEY)
  {
    KeyParts("migration.io/original-", "command");
    KeyParts("migration.io/original-", "args");
    KeyParts("migration.io/original-", "workdir");
    assert COMMAND_KEY == "migration.io/original-" + "command";
    assert ARGS_KEY == "migration.io/original-" + "args";
    assert WORKDIR_KEY == "migration.io/original-" + "workdir";
  }

  lemma KeyParts(a: string, b: string)
    requires IsKey(a) && IsKey(b)
    ensures IsKey(a + b)
  {
  }

  lemma DecodedIff(c: CommandLine, command: string, args: string, workdir: string)
    requires c.command != [] && command == Garbled(Join(c.command, ",")) && args == Garbled(Join(c.args, "|||"))
    requires workdir == Garbled(c.workdir)
    ensures Decoded(command, args, workdir) == Some(c) <==>
            Carried(c.command, ",") && Carried(c.args, "|||") && Faithful(c.workdir)
  {
    hide Garbled, Join, Split, Faithful, Carried;
    CarriedIff(c.command, ",", command);
    CarriedIff(c.args, "|||", args);
    GarbledIff(c.workdir);
  }

  lemma LookupSaved(before: map<string, string>, c: CommandLine)
    requires COMMAND_KEY !in before && ARGS_KEY !in before && WORKDIR_KEY !in before
    ensures Lookup(Saved(before, c), COMMAND_KEY) == Join(c.command, ",")
    ensures c.command != [] ==> Lookup(Saved(before, c), ARGS_KEY) == Join(c.args, "|||")
    ensures c.command != [] ==> Lookup(Saved(before, c), WORKDIR_KEY) == c.workdir
  {
    assert COMMAND_KEY[22] != ARGS_KEY[22] && COMMAND_KEY[22] != WORKDIR_KEY[22] && ARGS_KEY[22] != WORKDIR_KEY[22];
  }
}
