/** Strings as JavaScript's own methods treat them, for the modules that parse text. */
module Text {

  datatype Option<+T> = None | Some(value: T)

  /** What String.prototype.trim and the regular-expression class \s both call white space. */
  predicate IsSpace(c: char) {
    var n := c as int;
    || 9 <= n <= 13 || n == 0x20 || n == 0xA0 || n == 0x1680
    || 0x2000 <= n <= 0x200A || n == 0x2028 || n == 0x2029
    || n == 0x202F || n == 0x205F || n == 0x3000 || n == 0xFEFF
  }

  function TrimStart(s: string): string {
    if s != "" && IsSpace(s[0]) then TrimStart(s[1..]) else s
  }

  function TrimEnd(s: string): string {
    if s != "" && IsSpace(s[|s| - 1]) then TrimEnd(s[..|s| - 1]) else s
  }

  function Trim(s: string): string {
    TrimEnd(TrimStart(s))
  }

  predicate Trimmed(s: string) {
    s == "" || (!IsSpace(s[0]) && !IsSpace(s[|s| - 1]))
  }

  /** White space on either side of a trimmed string is exactly what Trim removes. */
  lemma TrimPadded(before: string, s: string, after: string)
    requires forall c | c in before + after :: IsSpace(c)
    requires Trimmed(s)
    ensures Trim(before + s + after) == s
  {
    forall c | c in before || c in after ensures IsSpace(c) { assert c in before + after; }
    if before != "" {
      assert (before + s + after)[1..] == before[1..] + s + after;
      TrimPadded(before[1..], s, after);
    } else if s != "" {
      assert before + s + after == s + after;
      TrimEndPadded(s, after);
    } else {
      assert before + s + after == after;
      TrimStartAll(after);
    }
  }

  lemma TrimStartAll(s: string)
    requires forall c | c in s :: IsSpace(c)
    ensures TrimStart(s) == ""
  {
  }

  lemma TrimEndPadded(s: string, after: string)
    requires forall c | c in after :: IsSpace(c)
    requires s == "" || !IsSpace(s[|s| - 1])
    ensures TrimEnd(s + after) == s
  {
    if after == "" {
      assert s + after == s;
    } else {
      assert (s + after)[..|s + after| - 1] == s + after[..|after| - 1];
      TrimEndPadded(s, after[..|after| - 1]);
    }
  }

  lemma TrimFixed(s: string)
    requires Trimmed(s)
    ensures Trim(s) == s
  {
  }

  lemma {:induction false} TrimEndKeepsFirst(s: string)
    requires s != "" && !IsSpace(s[0])
    ensures TrimEnd(s) != "" && TrimEnd(s)[0] == s[0]
  {
    if IsSpace(s[|s| - 1]) {
      TrimEndKeepsFirst(s[..|s| - 1]);
    }
  }

  lemma {:induction false} TrimStartStarts(s: string)
    ensures TrimStart(s) != "" ==> !IsSpace(TrimStart(s)[0])
  {
    if s != "" && IsSpace(s[0]) {
      TrimStartStarts(s[1..]);
    }
  }

  predicate Spaces(s: string) {
    forall c | c in s :: IsSpace(c)
  }

  /** The white space that trimming takes from the front, from the back, and from both. */
  lemma {:induction false} TrimStartSplit(s: string) returns (a: string)
    ensures Spaces(a) && s == a + TrimStart(s)
  {
    if s != "" && IsSpace(s[0]) {
      var rest := TrimStartSplit(s[1..]);
      a := [s[0]] + rest;
    } else {
      a := "";
    }
  }

  lemma {:induction false} TrimEndSplit(s: string) returns (c: string)
    ensures Spaces(c) && s == TrimEnd(s) + c
  {
    if s != "" && IsSpace(s[|s| - 1]) {
      var rest := TrimEndSplit(s[..|s| - 1]);
      c := rest + [s[|s| - 1]];
      assert s == s[..|s| - 1] + [s[|s| - 1]];
    } else {
      c := "";
    }
  }

  lemma TrimSplit(s: string) returns (a: string, c: string)
    ensures Spaces(a) && Spaces(c) && s == a + Trim(s) + c
  {
    a := TrimStartSplit(s);
    c := TrimEndSplit(TrimStart(s));
  }

  lemma {:induction false} TrimStartPast(a: string, s: string)
    requires Spaces(a) && (s == "" || !IsSpace(s[0]))
    ensures TrimStart(a + s) == s
    decreases |a|
  {
    if a == "" {
      assert a + s == s;
    } else {
      assert a[0] in a && (a + s)[1..] == a[1..] + s;
      TrimStartPast(a[1..], s);
    }
  }

  /** The white space of JavaScript, character by character. */
  lemma WhiteSpaceListed(c: char)
    ensures IsSpace(c) <==>
              || c in "\t\n\U{0B}\U{0C}\r \U{A0}\U{1680}\U{2028}\U{2029}\U{202F}\U{205F}\U{3000}\U{FEFF}"
              || '\U{2000}' <= c <= '\U{200A}'
  {
    var s := "\t\n\U{0B}\U{0C}\r \U{A0}\U{1680}\U{2028}\U{2029}\U{202F}\U{205F}\U{3000}\U{FEFF}";
    assert s[0] == '\t' && s[1] == '\n' && s[2] == '\U{0B}' && s[3] == '\U{0C}' && s[4] == '\r' && s[5] == ' ';
    assert s[6] == '\U{A0}' && s[7] == '\U{1680}' && s[8] == '\U{2028}' && s[9] == '\U{2029}';
    assert s[10] == '\U{202F}' && s[11] == '\U{205F}' && s[12] == '\U{3000}' && s[13] == '\U{FEFF}';
  }

  /** Lower case takes the twenty-six capitals to their letters and nothing else anywhere. */
  lemma LowerListed(i: nat, c: char)
    requires i < 26
    ensures LowerChar("ABCDEFGHIJKLMNOPQRSTUVWXYZ"[i]) == "abcdefghijklmnopqrstuvwxyz"[i]
    ensures !('A' <= c <= 'Z') ==> LowerChar(c) == c
  {
  }

  /** The string without the run of one character it starts or ends with. */
  function StripFront(s: string, c: char): string {
    if s != "" && s[0] == c then StripFront(s[1..], c) else s
  }

  function StripBack(s: string, c: char): string {
    if s != "" && s[|s| - 1] == c then StripBack(s[..|s| - 1], c) else s
  }

  function Digit(d: nat): char
    requires d < 10
  {
    "0123456789"[d]
  }

  function Decimal(n: nat): string {
    if n < 10 then [Digit(n)] else Decimal(n / 10) + [Digit(n % 10)]
  }

  /** Of ASCII. */
  predicate LetterOrDigit(c: char) {
    'A' <= c <= 'Z' || 'a' <= c <= 'z' || '0' <= c <= '9'
  }

  predicate Digits(s: string) {
    forall i | 0 <= i < |s| :: '0' <= s[i] <= '9'
  }

  /** ASCII lower case: what toLowerCase does to ASCII, which the theorems about it keep to. */
  function LowerChar(c: char): char {
    if 'A' <= c <= 'Z' then ((c as int) + 32) as char else c
  }

  function Lower(s: string): (r: string)
    ensures |r| == |s|
    ensures forall i | 0 <= i < |s| :: r[i] == LowerChar(s[i])
  {
    seq(|s|, i requires 0 <= i < |s| => LowerChar(s[i]))
  }

  predicate EndsWith(s: string, suffix: string) {
    |suffix| <= |s| && s[|s| - |suffix|..] == suffix
  }

  predicate Contains(s: string, part: string) {
    part <= s || (s != "" && Contains(s[1..], part))
  }

  lemma ContainsInside(before: string, part: string, after: string)
    ensures Contains(before + part + after, part)
  {
    if before == "" {
      assert before + part + after == part + after;
    } else {
      assert (before + part + after)[1..] == before[1..] + part + after;
      ContainsInside(before[1..], part, after);
    }
  }

  lemma InfixContains(before: string, u: string, after: string, part: string)
    requires part <= u
    ensures Contains(before + u + after, part)
  {
    var tail := u[|part|..];
    assert u == part + tail;
    assert before + u + after == before + part + (tail + after);
    ContainsInside(before, part, tail + after);
  }

  function OntoFirst(c: char, parts: seq<string>): seq<string>
    requires parts != []
  {
    [[c] + parts[0]] + parts[1..]
  }

  /** String.prototype.split on one character: always at least one part. */
  function SplitOn(s: string, sep: char): (parts: seq<string>)
    ensures |parts| >= 1
  {
    if s == "" then [""]
    else if s[0] == sep then [""] + SplitOn(s[1..], sep)
    else OntoFirst(s[0], SplitOn(s[1..], sep))
  }

  lemma {:induction false} SplitOnNone(s: string, sep: char)
    requires sep !in s
    ensures SplitOn(s, sep) == [s]
  {
    if s != "" {
      SplitOnNone(s[1..], sep);
      assert [s[0]] + s[1..] == s;
    }
  }

  lemma OntoFirstAppend(c: char, left: seq<string>, right: seq<string>)
    requires left != []
    ensures OntoFirst(c, left + right) == OntoFirst(c, left) + right
  {
  }

  lemma {:induction false} SplitOnSeparator(a: string, sep: char, b: string)
    ensures SplitOn(a + [sep] + b, sep) == SplitOn(a, sep) + SplitOn(b, sep)
  {
    var whole := a + [sep] + b;
    if a == "" {
      assert whole[0] == sep && whole[1..] == b;
    } else {
      assert whole[0] == a[0] && whole[1..] == a[1..] + [sep] + b;
      SplitOnSeparator(a[1..], sep, b);
      if a[0] != sep {
        OntoFirstAppend(a[0], SplitOn(a[1..], sep), SplitOn(b, sep));
      } else {
        assert [""] + (SplitOn(a[1..], sep) + SplitOn(b, sep)) == [""] + SplitOn(a[1..], sep) + SplitOn(b, sep);
      }
    }
  }

  /** Array.prototype.join. */
  function Join(parts: seq<string>, sep: string): string {
    if |parts| == 0 then ""
    else if |parts| == 1 then parts[0]
    else parts[0] + sep + Join(parts[1..], sep)
  }

  /** Splitting undoes joining when no part holds the separator and there is a part at all. */
  lemma SplitOnJoin(parts: seq<string>, sep: char)
    requires |parts| >= 1
    requires forall p | p in parts :: sep !in p
    ensures SplitOn(Join(parts, [sep]), sep) == parts
  {
    SplitOnNone(parts[0], sep);
    if |parts| > 1 {
      SplitOnJoin(parts[1..], sep);
      SplitOnSeparator(parts[0], sep, Join(parts[1..], [sep]));
    }
  }

  lemma {:induction false} JoinSplit(s: string, sep: char)
    ensures Join(SplitOn(s, sep), [sep]) == s
  {
    if s != "" {
      JoinSplit(s[1..], sep);
      var rest := SplitOn(s[1..], sep);
      var parts := SplitOn(s, sep);
      if s[0] == sep {
        assert parts == [""] + rest && parts[1..] == rest;
        assert Join(parts, [sep]) == "" + [sep] + s[1..];
      } else {
        assert parts == [[s[0]] + rest[0]] + rest[1..] && parts[1..] == rest[1..];
        if |rest| > 1 {
          assert Join(parts, [sep]) == [s[0]] + rest[0] + [sep] + Join(rest[1..], [sep]);
          assert Join(rest, [sep]) == rest[0] + [sep] + Join(rest[1..], [sep]);
          assert Join(parts, [sep]) == [s[0]] + s[1..];
        } else {
          assert Join(parts, [sep]) == [s[0]] + s[1..];
        }
      }
    }
  }

  /** A piece without the separator goes onto the first part of what follows it. */
  lemma {:induction false} SplitOnAfter(a: string, b: string, sep: char)
    requires sep !in a
    ensures SplitOn(a + b, sep) == [a + SplitOn(b, sep)[0]] + SplitOn(b, sep)[1..]
  {
    var rest := SplitOn(b, sep);
    if a == "" {
      assert a + b == b && a + rest[0] == rest[0] && [rest[0]] + rest[1..] == rest;
    } else {
      assert (a + b)[0] == a[0] && (a + b)[1..] == a[1..] + b;
      SplitOnAfter(a[1..], b, sep);
      assert [a[0]] + (a[1..] + rest[0]) == a + rest[0];
    }
  }

  lemma PrefixAfter(c: string, p: string, q: string)
    ensures c + p <= c + q <==> p <= q
  {
    assert (c + p)[|c|..] == p && (c + q)[|c|..] == q;
  }

  lemma {:induction false} SplitOnKeepsChars(s: string, sep: char, c: char)
    requires c in s && c != sep
    ensures exists part | part in SplitOn(s, sep) :: c in part
  {
    var parts, rest := SplitOn(s, sep), SplitOn(s[1..], sep);
    if s[0] == c {
      assert parts[0] == [c] + rest[0];
      assert parts[0] in parts && c in parts[0];
    } else {
      SplitOnKeepsChars(s[1..], sep, c);
      var part :| part in rest && c in part;
      var i :| 0 <= i < |rest| && rest[i] == part;
      if s[0] == sep {
        assert parts[i + 1] == part;
      } else if i == 0 {
        assert parts[0] == [s[0]] + part;
        assert parts[0] in parts && c in parts[0];
      } else {
        assert parts[i] == part;
      }
    }
  }

  /** How far the first occurrence of sep is from the front; the length when there is none. */
  function HeadLength(s: string, sep: char): nat {
    if s == "" || s[0] == sep then 0 else 1 + HeadLength(s[1..], sep)
  }

  /** How far the last occurrence of sep is from the back; the length when there is none. */
  function TailLength(s: string, sep: char): nat {
    if s == "" || s[|s| - 1] == sep then 0 else 1 + TailLength(s[..|s| - 1], sep)
  }

  lemma {:induction false} HeadLengthOf(a: string, sep: char, x: string)
    requires sep !in a
    ensures HeadLength(a + [sep] + x, sep) == |a|
  {
    if a == "" {
      assert (a + [sep] + x)[0] == sep;
    } else {
      assert (a + [sep] + x)[1..] == a[1..] + [sep] + x;
      HeadLengthOf(a[1..], sep, x);
    }
  }

  lemma {:induction false} TailLengthOf(a: string, sep: char, x: string)
    requires sep !in x
    ensures TailLength(a + [sep] + x, sep) == |x|
  {
    var s := a + [sep] + x;
    if x == "" {
      assert s[|s| - 1] == sep;
    } else {
      assert s[..|s| - 1] == a + [sep] + x[..|x| - 1];
      TailLengthOf(a, sep, x[..|x| - 1]);
    }
  }

  /** Texts that agree, with sep absent from both heads, agree before and after the first sep. */
  lemma SameAroundFirst(a: string, x: string, b: string, y: string, sep: char)
    requires sep !in a && sep !in b && a + [sep] + x == b + [sep] + y
    ensures a == b && x == y
  {
    HeadLengthOf(a, sep, x);
    HeadLengthOf(b, sep, y);
    var s := a + [sep] + x;
    assert a == s[..|a|] && b == s[..|b|] && x == s[|a| + 1..] && y == s[|b| + 1..];
  }

  /** The same around the last sep, absent from both tails. */
  lemma SameAroundLast(a: string, x: string, b: string, y: string, sep: char)
    requires sep !in x && sep !in y && a + [sep] + x == b + [sep] + y
    ensures a == b && x == y
  {
    TailLengthOf(a, sep, x);
    TailLengthOf(b, sep, y);
    var s := a + [sep] + x;
    assert a == s[..|a|] && b == s[..|b|] && x == s[|a| + 1..] && y == s[|b| + 1..];
  }
}
