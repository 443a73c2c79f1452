/** String operations of the Rust standard library that the modelled code leans on:
    whitespace trimming, line splitting, splitting at a separator, joining. */
module Text {
  import opened Options

  /** Unicode White_Space, the class `str::trim` removes. */
  predicate IsWhitespace(c: char) {
    || c == ' ' || '\t' <= c <= '\r' || c == '\U{0085}' || c == '\U{00A0}' || c == '\U{1680}'
    || '\U{2000}' <= c <= '\U{200A}' || c == '\U{2028}' || c == '\U{2029}' || c == '\U{202F}'
    || c == '\U{205F}' || c == '\U{3000}'
  }

  function TrimStart(s: string): string {
    if s != "" && IsWhitespace(s[0]) then TrimStart(s[1..]) else s
  }

  function TrimEnd(s: string): string {
    if s != "" && IsWhitespace(s[|s| - 1]) then TrimEnd(s[..|s| - 1]) else s
  }

  function Trim(s: string): string {
    TrimEnd(TrimStart(s))
  }

  /** No whitespace at either end. */
  predicate Trimmed(s: string) {
    s != "" ==> !IsWhitespace(s[0]) && !IsWhitespace(s[|s| - 1])
  }

  lemma {:induction false} TrimStartBare(s: string)
    ensures TrimStart(s) == "" || !IsWhitespace(TrimStart(s)[0])
    ensures |TrimStart(s)| <= |s| && TrimStart(s) == s[|s| - |TrimStart(s)|..]
  {
    if s != "" && IsWhitespace(s[0]) { TrimStartBare(s[1..]); }
  }

  lemma {:induction false} TrimEndBare(s: string)
    ensures TrimEnd(s) <= s
    ensures TrimEnd(s) == "" || !IsWhitespace(TrimEnd(s)[|TrimEnd(s)| - 1])
  {
    if s != "" && IsWhitespace(s[|s| - 1]) { TrimEndBare(s[..|s| - 1]); }
  }

  /** Trimming yields a trimmed string made of characters of the original. */
  lemma TrimIsTrimmed(s: string)
    ensures Trimmed(Trim(s))
    ensures forall c | c in Trim(s) :: c in s
  {
    TrimStartBare(s);
    TrimEndBare(TrimStart(s));
  }

  lemma TrimOfTrimmed(s: string)
    requires Trimmed(s)
    ensures Trim(s) == s
  {}

  lemma {:induction false} TrimStartAppend(s: string, c: char)
    requires IsWhitespace(c)
    ensures TrimStart(s + [c]) == if TrimStart(s) == "" then "" else TrimStart(s) + [c]
  {
    if s == "" {
      assert s + [c] == [c] && [c][1..] == "";
    } else if IsWhitespace(s[0]) {
      assert (s + [c])[1..] == s[1..] + [c];
      TrimStartAppend(s[1..], c);
    }
  }

  /** Trailing whitespace does not change the trimmed text. */
  lemma TrimAppend(s: string, c: char)
    requires IsWhitespace(c)
    ensures Trim(s + [c]) == Trim(s)
  {
    TrimStartAppend(s, c);
    var t := TrimStart(s);
    assert (t + [c])[..|t + [c]| - 1] == t;
  }

  predicate Blank(s: string) {
    forall i | 0 <= i < |s| :: IsWhitespace(s[i])
  }

  lemma {:induction false} TrimStartPad(a: string, s: string)
    requires Blank(a)
    ensures TrimStart(a + s) == TrimStart(s)
  {
    if a == "" {
      assert a + s == s;
    } else {
      assert (a + s)[1..] == a[1..] + s;
      TrimStartPad(a[1..], s);
    }
  }

  /** Trimming takes the whitespace on both sides and nothing else. */
  lemma {:induction false} TrimPads(a: string, w: string, b: string)
    requires Blank(a) && Blank(b) && Trimmed(w)
    ensures Trim(a + w + b) == w
  {
    if b == "" {
      assert a + w + b == a + w;
      TrimStartPad(a, w);
      TrimOfTrimmed(w);
    } else {
      var n := |b| - 1;
      assert a + w + b == (a + w + b[..n]) + [b[n]];
      TrimPads(a, w, b[..n]);
      TrimAppend(a + w + b[..n], b[n]);
    }
  }

  /** Every text is what trimming leaves, between blanks. */
  lemma TrimSplits(s: string) returns (a: string, b: string)
    ensures Blank(a) && Blank(b) && s == a + Trim(s) + b
  {
    TrimStartBare(s);
    TrimEndBare(TrimStart(s));
    a, b := s[..|s| - |TrimStart(s)|], TrimStart(s)[|Trim(s)|..];
    TrimStartTakes(s);
    TrimEndTakes(TrimStart(s));
  }

  lemma {:induction false} TrimStartTakes(s: string)
    ensures |TrimStart(s)| <= |s| && Blank(s[..|s| - |TrimStart(s)|])
  {
    if s != "" && IsWhitespace(s[0]) { TrimStartTakes(s[1..]); }
  }

  lemma {:induction false} TrimEndTakes(s: string)
    ensures |TrimEnd(s)| <= |s| && Blank(s[|TrimEnd(s)|..])
  {
    if s != "" && IsWhitespace(s[|s| - 1]) {
      var t := s[..|s| - 1];
      TrimEndTakes(t);
      assert s[|TrimEnd(s)|..] == t[|TrimEnd(t)|..] + [s[|s| - 1]];
    }
  }

  /** Position of the first `c` in `s`, or |s|. */
  function Find(s: string, c: char): (i: nat)
    ensures i <= |s| && c !in s[..i] && (i < |s| ==> s[i] == c)
  {
    if s == "" || s[0] == c then 0
    else
      var j := Find(s[1..], c);
      assert s[..1 + j] == [s[0]] + s[1..][..j];
      1 + j
  }

  /** Position just after the last `c` in `s`, or 0. */
  function FindLast(s: string, c: char): (i: nat)
    ensures i <= |s| && c !in s[i..] && (i > 0 ==> s[i - 1] == c)
  {
    if s == "" || s[|s| - 1] == c then |s|
    else
      var i := FindLast(s[..|s| - 1], c);
      assert s[i..] == s[..|s| - 1][i..] + [s[|s| - 1]];
      i
  }

  /** `str::split_once` on one character. */
  function SplitOnce(s: string, c: char): Option<(string, string)> {
    var i := Find(s, c);
    if i == |s| then None else Some((s[..i], s[i + 1..]))
  }

  /** `str::rsplit_once` on one character. */
  function RSplitOnce(s: string, c: char): Option<(string, string)> {
    var i := FindLast(s, c);
    if i == 0 then None else Some((s[..i - 1], s[i..]))
  }

  lemma FindInConcat(a: string, c: char, b: string)
    requires c !in a
    ensures Find(a + [c] + b, c) == |a|
  {
    var s := a + [c] + b;
    assert s[|a|] == c && forall j | 0 <= j < |a| :: s[j] == a[j];
    assert forall j | 0 <= j < Find(s, c) :: s[j] == s[..Find(s, c)][j];
  }

  /** A separator-free left part comes back from `split_once`. */
  lemma SplitOnceInverse(a: string, c: char, b: string)
    requires c !in a
    ensures SplitOnce(a + [c] + b, c) == Some((a, b))
  {
    FindInConcat(a, c, b);
    assert (a + [c] + b)[..|a|] == a && (a + [c] + b)[|a| + 1..] == b;
  }

  /** A separator-free right part comes back from `rsplit_once`, whatever stands on the left. */
  lemma RSplitOnceInverse(a: string, c: char, b: string)
    requires c !in b
    ensures RSplitOnce(a + [c] + b, c) == Some((a, b))
  {
    var s := a + [c] + b;
    assert s[|a|] == c && forall j | |a| < j < |s| :: s[j] == b[j - |a| - 1];
    assert forall j | FindLast(s, c) <= j < |s| :: s[j] == s[FindLast(s, c)..][j - FindLast(s, c)];
    assert FindLast(s, c) == |a| + 1;
    assert s[..|a|] == a && s[|a| + 1..] == b;
  }

  /** What `rsplit_once` yields joins up again, and the right part has no separator. */
  lemma RSplitOnceJoins(s: string, c: char)
    ensures RSplitOnce(s, c).Some? ==>
      var parts := RSplitOnce(s, c).value; s == parts.0 + [c] + parts.1 && c !in parts.1
    ensures RSplitOnce(s, c).None? <==> c !in s
  {
    var i := FindLast(s, c);
    if i > 0 {
      assert s == s[..i - 1] + [s[i - 1]] + s[i..];
    } else {
      assert s[0..] == s;
    }
  }

  function Elements(names: seq<string>): set<string> {
    set n | n in names
  }

  /** No two are equal. */
  predicate Distinct(names: seq<string>) {
    forall i, j | 0 <= i < j < |names| :: names[i] != names[j]
  }

  function StripPrefix(s: string, p: string): Option<string> {
    if p <= s then Some(s[|p|..]) else None
  }

  predicate EndsWith(s: string, e: string) {
    |e| <= |s| && s[|s| - |e|..] == e
  }

  function StripSuffix(s: string, e: string): Option<string> {
    if EndsWith(s, e) then Some(s[..|s| - |e|]) else None
  }

  predicate Contains(s: string, sub: string) {
    sub <= s || (s != "" && Contains(s[1..], sub))
  }

  /** `str::split` on one character: always at least one piece. */
  function Split(s: string, c: char): (parts: seq<string>)
    ensures |parts| > 0
    decreases |s|
  {
    var i := Find(s, c);
    if i == |s| then [s] else [s[..i]] + Split(s[i + 1..], c)
  }

  function Join(parts: seq<string>, c: char): string {
    if parts == [] then ""
    else if |parts| == 1 then parts[0]
    else parts[0] + [c] + Join(parts[1..], c)
  }

  lemma {:induction false} JoinSnoc(parts: seq<string>, last: string, c: char)
    ensures Join(parts + [last], c) == if parts == [] then last else Join(parts, c) + [c] + last
  {
    if |parts| > 0 {
      assert (parts + [last])[1..] == parts[1..] + [last];
      JoinSnoc(parts[1..], last, c);
      if |parts| > 1 { Assoc(parts[0] + [c], Join(parts[1..], c), [c] + last); }
    }
  }

  /** A text contains another exactly if it is that with something before and after it. */
  lemma {:induction false} ContainsExactly(s: string, sub: string)
    ensures Contains(s, sub) <==> exists a, b :: s == a + sub + b
  {
    if sub <= s {
      assert s == "" + sub + s[|sub|..];
    } else if s != "" {
      ContainsExactly(s[1..], sub);
      if Contains(s[1..], sub) {
        var a, b :| s[1..] == a + sub + b;
        assert s == ([s[0]] + a) + sub + b;
      }
      if a, b :| s == a + sub + b {
        assert a != "" && s[1..] == a[1..] + sub + b;
      }
    }
  }

  lemma {:induction false} SplitJoin(parts: seq<string>, c: char)
    requires parts != []
    requires forall p | p in parts :: c !in p
    ensures Split(Join(parts, c), c) == parts
  {
    assert parts[0] in parts;
    if |parts| > 1 {
      var rest := Join(parts[1..], c);
      FindInConcat(parts[0], c, rest);
      assert (parts[0] + [c] + rest)[..|parts[0]|] == parts[0];
      assert (parts[0] + [c] + rest)[|parts[0]| + 1..] == rest;
      SplitJoin(parts[1..], c);
    }
  }

  /** `str::lines`: split at '\n', drop one '\r' in front of it; the last line needs no '\n'
      and then keeps its '\r'. */
  function Lines(t: string): seq<string>
    decreases |t|
  {
    var i := Find(t, '\n');
    if t == "" then []
    else if i == |t| then [t]
    else [DropCr(t[..i])] + Lines(t[i + 1..])
  }

  function DropCr(line: string): string {
    if line != "" && line[|line| - 1] == '\r' then line[..|line| - 1] else line
  }

  /** Text that is empty or stops right after a line break. */
  predicate Terminated(t: string) {
    t == "" || t[|t| - 1] == '\n'
  }

  lemma LinesStep(line: string, rest: string)
    requires '\n' !in line
    ensures Lines(line + ['\n'] + rest) == [DropCr(line)] + Lines(rest)
  {
    var t := line + ['\n'] + rest;
    FindInConcat(line, '\n', rest);
    assert t[..|line|] == line && t[|line| + 1..] == rest;
  }

  lemma Assoc<T>(a: seq<T>, b: seq<T>, c: seq<T>)
    ensures a + b + c == a + (b + c)
  {}

  lemma FirstLine(a: string) returns (line: string, rest: string)
    requires a != "" && Terminated(a)
    ensures a == line + ['\n'] + rest && '\n' !in line && Terminated(rest)
    ensures Lines(a) == [DropCr(line)] + Lines(rest)
  {
    var i := Find(a, '\n');
    assert a[..|a|] == a && '\n' in a by { assert a[|a| - 1] == '\n'; }
    line, rest := a[..i], a[i + 1..];
  }

  /** Lines of a concatenation at a line break are the lines of the parts. */
  lemma {:induction false} LinesConcat(a: string, b: string)
    requires Terminated(a)
    ensures Lines(a + b) == Lines(a) + Lines(b)
    decreases |a|
  {
    if a == "" {
      assert a + b == b;
    } else {
      var line, rest := FirstLine(a);
      LinesConcat(rest, b);
      LinesStep(line, rest + b);
      Assoc(line + ['\n'], rest, b);
      Assoc([DropCr(line)], Lines(rest), Lines(b));
    }
  }

  lemma LinesOfLine(line: string)
    requires '\n' !in line
    ensures Lines(line + "\n") == [DropCr(line)]
  {
    LinesStep(line, "");
    assert line + "\n" == line + ['\n'] + "";
  }

  lemma DropCrAddsNothing(line: string)
    requires '\n' !in line
    ensures '\n' !in DropCr(line)
  {}

  lemma {:induction false} LinesHaveNoBreak(t: string)
    ensures forall l | l in Lines(t) :: '\n' !in l
    decreases |t|
  {
    hide Find, DropCr;
    var i := Find(t, '\n');
    if t != "" && i < |t| {
      LinesHaveNoBreak(t[i + 1..]);
      DropCrAddsNothing(t[..i]);
    } else if t != "" {
      assert t[..i] == t;
    }
  }
}
