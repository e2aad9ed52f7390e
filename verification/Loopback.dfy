/**
 * Which host names count as loopback: the test the analyser runs, against what a loopback name
 * looks like written out.
 */
module Loopback {
  import opened Text

  predicate OctetShaped(s: string) {
    1 <= |s| <= 3 && Digits(s)
  }

  /** /^127\.\d{1,3}\.\d{1,3}\.\d{1,3}$/. */
  predicate DottedLoopback(s: string) {
    var parts := SplitOn(s, '.');
    |parts| == 4 && parts[0] == "127" && OctetShaped(parts[1]) && OctetShaped(parts[2]) && OctetShaped(parts[3])
  }

  function StripBrackets(host: string): string {
    var t := if host != "" && host[0] == '[' then host[1..] else host;
    if t != "" && t[|t| - 1] == ']' then t[..|t| - 1] else t
  }

  predicate IsLoopbackHost(host: string) {
    var bare := Lower(StripBrackets(host));
    bare == "localhost" || bare == "::1" || DottedLoopback(bare)
  }

  // ---------- Loopback names, written out ----------

  /** One to three decimal digits. */
  predicate Octet(s: string) {
    1 <= |s| <= 3 && forall i | 0 <= i < |s| :: s[i] in "0123456789"
  }

  ghost predicate Dotted127(name: string) {
    exists a, b, c :: Octet(a) && Octet(b) && Octet(c) && name == Join(["127", a, b, c], ".")
  }

  /** The host is the name, with or without a bracket on either side. */
  predicate Bracketed(host: string, name: string) {
    host == name || host == "[" + name || host == name + "]" || host == "[" + name + "]"
  }

  /** localhost in any case, ::1, or 127 and three octets; each perhaps in brackets. */
  ghost predicate NamesLoopback(host: string) {
    exists name :: Bracketed(host, name) && (Lower(name) == "localhost" || name == "::1" || Dotted127(name))
  }

  lemma OctetIsShaped(s: string)
    ensures Octet(s) <==> OctetShaped(s)
  {
    forall i | 0 <= i < |s| ensures s[i] in "0123456789" <==> '0' <= s[i] <= '9' {
      DigitListed(s[i]);
    }
  }

  lemma DigitListed(c: char)
    ensures c in "0123456789" <==> '0' <= c <= '9'
  {
    if '0' <= c <= '9' {
      assert "0123456789"[c as int - '0' as int] == c;
    }
  }

  lemma OctetHasNoDot(s: string)
    requires Octet(s)
    ensures '.' !in s
  {
    OctetIsShaped(s);
  }

  lemma DottedIff(name: string)
    ensures DottedLoopback(name) <==> Dotted127(name)
  {
    if DottedLoopback(name) {
      var parts := SplitOn(name, '.');
      JoinSplit(name, '.');
      assert parts == ["127", parts[1], parts[2], parts[3]];
      OctetIsShaped(parts[1]);
      OctetIsShaped(parts[2]);
      OctetIsShaped(parts[3]);
      assert Octet(parts[1]) && name == Join(["127", parts[1], parts[2], parts[3]], ".");
    }
    if Dotted127(name) {
      var a, b, c :| Octet(a) && Octet(b) && Octet(c) && name == Join(["127", a, b, c], ".");
      DottedSplits(a, b, c);
      OctetIsShaped(a);
      OctetIsShaped(b);
      OctetIsShaped(c);
    }
  }

  lemma DottedSplits(a: string, b: string, c: string)
    requires Octet(a) && Octet(b) && Octet(c)
    ensures SplitOn(Join(["127", a, b, c], "."), '.') == ["127", a, b, c]
  {
    OctetHasNoDot(a);
    OctetHasNoDot(b);
    OctetHasNoDot(c);
    SplitOnJoin(["127", a, b, c], '.');
  }

  /** The characters of these names, but for localhost's, have no case. */
  lemma CaselessName(name: string)
    requires DottedLoopback(Lower(name)) || Lower(name) == "::1"
    ensures Lower(name) == name
  {
    var low := Lower(name);
    forall i | 0 <= i < |name| ensures low[i] == name[i] {
      if DottedLoopback(low) && low[i] != '.' {
        DottedDigit(low, i);
      }
    }
  }

  lemma DottedDigit(s: string, i: nat)
    requires DottedLoopback(s) && i < |s| && s[i] != '.'
    ensures '0' <= s[i] <= '9'
  {
    SplitOnKeepsChars(s, '.', s[i]);
    assert Digits("127");
  }

  lemma StrippedIsBracketed(host: string)
    ensures Bracketed(host, StripBrackets(host))
  {
    var name := StripBrackets(host);
    if host != "" && host[0] == '[' {
      assert host == "[" + host[1..];
    }
  }

  lemma BracketedStrips(host: string, name: string)
    requires Bracketed(host, name) && name != "" && name[0] != '[' && name[|name| - 1] != ']'
    ensures StripBrackets(host) == name
  {
  }

  /** The test accepts exactly the names written out above. */
  lemma LoopbackIff(host: string)
    ensures IsLoopbackHost(host) <==> NamesLoopback(host)
  {
    if IsLoopbackHost(host) {
      var name := StripBrackets(host);
      StrippedIsBracketed(host);
      if Lower(name) != "localhost" {
        CaselessName(name);
        DottedIff(name);
      }
      assert Bracketed(host, name) && (Lower(name) == "localhost" || name == "::1" || Dotted127(name));
    }
    if NamesLoopback(host) {
      var name :| Bracketed(host, name) && (Lower(name) == "localhost" || name == "::1" || Dotted127(name));
      if Lower(name) == "localhost" {
        assert Lower(name)[0] == LowerChar(name[0]) && Lower(name)[8] == LowerChar(name[8]);
        BracketedStrips(host, name);
      } else if name == "::1" {
        BracketedStrips(host, name);
        assert Lower(name) == name;
      } else {
        DottedStays(host, name);
      }
    }
  }

  lemma DottedStays(host: string, name: string)
    requires Dotted127(name) && Bracketed(host, name)
    ensures IsLoopbackHost(host)
  {
    DottedIff(name);
    var parts := SplitOn(name, '.');
    JoinSplit(name, '.');
    forall i | 0 <= i < |name| ensures Lower(name)[i] == name[i] && name[i] != '[' && name[i] != ']' {
      if name[i] != '.' {
        DottedDigit(name, i);
      }
    }
    assert name != "";
    BracketedStrips(host, name);
    assert Lower(name) == name;
  }

  /** Any 127.a.b.c is loopback. */
  lemma QuadAccepted(a: string, b: string, c: string)
    requires Octet(a) && Octet(b) && Octet(c)
    ensures IsLoopbackHost("127" + "." + a + "." + b + "." + c)
  {
    var quad := Join(["127", a, b, c], ".");
    QuadText("127", ".", a, b, c);
    assert Dotted127(quad);
    DottedStays(quad, quad);
  }

  lemma QuadText(n: string, dot: string, a: string, b: string, c: string)
    ensures Join([n, a, b, c], dot) == n + dot + a + dot + b + dot + c
  {
    assert [n, a, b, c][1..] == [a, b, c] && [a, b, c][1..] == [b, c] && [b, c][1..] == [c];
    assert Join([c], dot) == c && Join([b, c], dot) == b + dot + c;
    assert Join([a, b, c], dot) == a + dot + (b + dot + c);
  }

  lemma NamesAccepted()
    ensures IsLoopbackHost("localhost") && IsLoopbackHost("LOCALHOST") && IsLoopbackHost("[::1]") && IsLoopbackHost("::1")
  {
    assert Lower("localhost") == "localhost" && StripBrackets("localhost") == "localhost";
    assert Lower("LOCALHOST") == "localhost" && StripBrackets("LOCALHOST") == "LOCALHOST";
    assert StripBrackets("[::1]") == "::1" && Lower("::1") == "::1" && StripBrackets("::1") == "::1";
  }

  /** The addresses that mean every interface are refused, and so is no name. */
  lemma WildcardsRefused()
    ensures !IsLoopbackHost("0.0.0.0") && !IsLoopbackHost("::") && !IsLoopbackHost("")
  {
    Refused("0.0.0.0", "0", "0.0.0");
    SplitOnNone("::", '.');
    assert StripBrackets("::") == "::" && Lower("::") == "::";
    assert StripBrackets("") == "" && Lower("") == "" && SplitOn("", '.') == [""];
  }

  lemma Refused(host: string, first: string, rest: string)
    requires host == first + "." + rest && '.' !in first && first != "127" && rest != "" && first != ""
    requires forall i | 0 <= i < |host| :: host[i] == '.' || '0' <= host[i] <= '9'
    ensures !IsLoopbackHost(host)
  {
    assert StripBrackets(host) == host && Lower(host) == host;
    SplitOnSeparator(first, '.', rest);
    SplitOnNone(first, '.');
    assert first + ['.'] + rest == host;
    assert SplitOn(host, '.')[0] == first;
  }
}
