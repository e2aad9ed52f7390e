/**
 * The names that keep scenarios apart: the slug of each, and the environments, databases,
 * catalogs and server roots built from it. Resources are kept in a map by scenario id, so
 * scenarios with one id use one scenario's resources: those of the last.
 */
module Slugs {
  import opened Text
  import opened Paths
  import Cluster

  predicate LowerAlnum(c: char) {
    'a' <= c <= 'z' || '0' <= c <= '9'
  }

  /** replace(/[^a-z0-9]+/g, "_"); inRun says the previous character was already replaced. */
  function Squash(s: string, inRun: bool): string {
    if s == "" then ""
    else if LowerAlnum(s[0]) then [s[0]] + Squash(s[1..], false)
    else if inRun then Squash(s[1..], true)
    else "_" + Squash(s[1..], true)
  }

  function Base(id: string): string {
    StripBack(StripFront(Squash(Lower(id), false), '_'), '_')
  }

  const SLUG_CUT := 40

  function Cut(id: string): string {
    var b := Base(id);
    if |b| <= SLUG_CUT then b else b[..SLUG_CUT]
  }

  function SlugOf(id: string, index: nat): string {
    Cut(id) + "_" + Decimal(index)
  }

  // ---------- What a scenario owns ----------

  /** The last of the first n scenarios with this id; n itself if there is none. */
  function LastWith(ids: seq<string>, n: nat, id: string): (k: nat)
    requires n <= |ids|
    ensures k <= n && (k < n ==> ids[k] == id)
  {
    if n == 0 then 0
    else if ids[n - 1] == id then n - 1
    else if LastWith(ids, n - 1, id) == n - 1 then n
    else LastWith(ids, n - 1, id)
  }

  lemma {:induction false} LastWithIs(ids: seq<string>, n: nat, id: string)
    requires n <= |ids|
    ensures forall i | 0 <= i < n && ids[i] == id :: i <= LastWith(ids, n, id) < n
  {
    if n > 0 {
      LastWithIs(ids, n - 1, id);
    }
  }

  /** The scenario whose resources scenario i uses. */
  function Provider(ids: seq<string>, i: nat): (k: nat)
    requires i < |ids|
    ensures k < |ids| && ids[k] == ids[i]
  {
    LastWithIs(ids, |ids|, ids[i]);
    LastWith(ids, |ids|, ids[i])
  }

  /** It is the last one with that id. */
  lemma ProviderIsLast(ids: seq<string>, i: nat)
    requires i < |ids|
    ensures i <= Provider(ids, i) && forall j | Provider(ids, i) < j < |ids| :: ids[j] != ids[i]
  {
    LastWithIs(ids, |ids|, ids[i]);
  }

  /** The loop that fills the map: a later scenario's entry takes the place of an earlier one's. */
  method Provision(ids: seq<string>) returns (resources: map<string, nat>)
    ensures resources.Keys == set i | 0 <= i < |ids| :: ids[i]
    ensures forall i | 0 <= i < |ids| :: resources[ids[i]] == Provider(ids, i)
  {
    resources := map[];
    for i := 0 to |ids|
      invariant resources.Keys == set k | 0 <= k < i :: ids[k]
      invariant forall id | id in resources :: resources[id] == LastWith(ids, i, id) < i
    {
      resources := resources[ids[i] := i];
    }
  }

  function SlugUsed(ids: seq<string>, i: nat): string
    requires i < |ids|
  {
    SlugOf(ids[i], Provider(ids, i))
  }

  function EnvFor(ids: seq<string>, i: nat, logical: string): string
    requires i < |ids|
  {
    SlugUsed(ids, i) + "__" + logical
  }

  function SourceDb(ids: seq<string>, i: nat): string
    requires i < |ids|
  {
    "src_" + SlugUsed(ids, i)
  }

  function CatalogDbFor(ids: seq<string>, i: nat, conn: string): string
    requires i < |ids|
  {
    "cat_" + SlugUsed(ids, i) + "__" + conn
  }

  /** The directory that the scenario's publisher of this name keeps its storage in. */
  function ServerRoot(workdir: Path, ids: seq<string>, i: nat, name: string): Path
    requires i < |ids|
  {
    JoinedDir(workdir, Cluster.RootLeaf(SlugUsed(ids, i) + "-", name))
  }

  /** The test that gives an environment to a scenario. */
  predicate Claims(ids: seq<string>, i: nat, env: string)
    requires i < |ids|
  {
    SlugUsed(ids, i) + "__" <= env
  }

  /** The last of the first n numbers that p holds of. */
  function LastHolding(n: nat, p: nat -> bool): (r: Option<nat>)
    ensures r.Some? ==> r.value < n
  {
    if n == 0 then None else if p(n - 1) then Some(n - 1) else LastHolding(n - 1, p)
  }

  lemma {:induction false} LastHoldingIs(n: nat, p: nat -> bool)
    ensures var r := LastHolding(n, p);
            && (r.None? ==> forall i | 0 <= i < n :: !p(i))
            && (r.Some? ==> p(r.value) && forall i | r.value < i < n :: !p(i))
  {
    if n > 0 {
      LastHoldingIs(n - 1, p);
    }
  }

  /** The last of the first n scenarios whose prefix the environment carries. */
  function LastClaimant(ids: seq<string>, n: nat, env: string): (r: Option<nat>)
    requires n <= |ids|
    ensures r.Some? ==> r.value < n
  {
    LastHolding(n, Claimant(ids, env))
  }

  function Claimant(ids: seq<string>, env: string): nat -> bool {
    (i: nat) => i < |ids| && Claims(ids, i, env)
  }

  lemma LastClaimantIs(ids: seq<string>, n: nat, env: string)
    requires n <= |ids|
    ensures var r := LastClaimant(ids, n, env);
            && (r.None? ==> forall i | 0 <= i < n :: !Claims(ids, i, env))
            && (r.Some? ==> Claims(ids, r.value, env) && forall i | r.value < i < n :: !Claims(ids, i, env))
  {
    var p := Claimant(ids, env);
    LastHoldingIs(n, p);
    assert forall i: nat | i < n :: p(i) <==> Claims(ids, i, env);
  }

  function OwnerAmong(ids: seq<string>, n: nat, env: string): Option<nat>
    requires n <= |ids|
  {
    match LastClaimant(ids, n, env)
    case None => None
    case Some(k) => Some(Provider(ids, k))
  }

  lemma OwnerStep(ids: seq<string>, i: nat, env: string)
    requires i < |ids|
    ensures var r := Provider(ids, i);
            OwnerAmong(ids, i + 1, env) ==
            if SlugOf(ids[r], r) + "__" <= env then Some(r) else OwnerAmong(ids, i, env)
  {
    assert Claimant(ids, env)(i) <==> Claims(ids, i, env);
  }

  /** Whose resources an environment is given. */
  function Owner(ids: seq<string>, env: string): Option<nat> {
    OwnerAmong(ids, |ids|, env)
  }

  /** The ownerOf loop: for each scenario in turn, its resources, if the environment carries their prefix. */
  method OwnerOf(ids: seq<string>, env: string) returns (owner: Option<nat>)
    ensures owner == Owner(ids, env)
  {
    var resources := Provision(ids);
    owner := None;
    for i := 0 to |ids|
      invariant owner == OwnerAmong(ids, i, env)
    {
      var r := resources[ids[i]];
      assert r == Provider(ids, i);
      OwnerStep(ids, i, env);
      if SlugOf(ids[r], r) + "__" <= env {
        owner := Some(r);
      }
    }
  }

  // ---------- The words of an id ----------

  /** Letters and digits of ASCII. */
  predicate Word(s: string) {
    s != "" && forall c | c in s :: LetterOrDigit(c)
  }

  /** Anything else, or nothing. */
  predicate Gap(s: string) {
    forall c | c in s :: !LetterOrDigit(c)
  }

  /** Words, each with the gap after it; only the last gap may be empty. */
  predicate WordsOk(words: seq<(string, string)>) {
    && (forall i | 0 <= i < |words| :: Word(words[i].0) && Gap(words[i].1))
    && forall i | 0 <= i < |words| - 1 :: words[i].1 != ""
  }

  function WordsText(words: seq<(string, string)>): string {
    if words == [] then "" else words[0].0 + (words[0].1 + WordsText(words[1..]))
  }

  function LoweredWords(words: seq<(string, string)>): seq<string> {
    if words == [] then [] else [Lower(words[0].0)] + LoweredWords(words[1..])
  }

  lemma LowerApart(s: string, t: string)
    ensures Lower(s + t) == Lower(s) + Lower(t)
  {
  }

  lemma {:induction false} SquashWord(w: string, s: string, inRun: bool)
    requires w != "" && forall c | c in w :: LetterOrDigit(c)
    ensures Squash(Lower(w) + s, inRun) == Lower(w) + Squash(s, false)
    decreases |w|
  {
    var low := Lower(w);
    assert w[0] in w && low[0] == LowerChar(w[0]) && LowerAlnum(low[0]);
    assert (low + s)[1..] == low[1..] + s && low[1..] == Lower(w[1..]);
    if |w| > 1 {
      SquashWord(w[1..], s, false);
      assert [low[0]] + (Lower(w[1..]) + Squash(s, false)) == low + Squash(s, false);
    } else {
      assert low[1..] + s == s && low == [low[0]];
    }
  }

  lemma {:induction false} SquashGap(g: string, s: string, inRun: bool)
    requires Gap(g)
    ensures Squash(Lower(g) + s, inRun) == (if g == "" || inRun then "" else "_") + Squash(s, g != "" || inRun)
    decreases |g|
  {
    var low := Lower(g);
    if g == "" {
      assert low + s == s && "" + Squash(s, inRun) == Squash(s, inRun);
    } else {
      assert g[0] in g && low[0] == LowerChar(g[0]) && !LowerAlnum(low[0]);
      assert (low + s)[1..] == low[1..] + s && low[1..] == Lower(g[1..]);
      SquashGap(g[1..], s, true);
      assert "" + Squash(s, true) == Squash(s, true);
    }
  }

  lemma {:induction false} SquashWords(words: seq<(string, string)>, inRun: bool)
    requires words != [] && WordsOk(words)
    ensures Squash(Lower(WordsText(words)), inRun)
         == Join(LoweredWords(words), "_") + (if words[|words| - 1].1 == "" then "" else "_")
    decreases |words|
  {
    var w, g, rest := words[0].0, words[0].1, words[1..];
    LowerApart(w, g + WordsText(rest));
    LowerApart(g, WordsText(rest));
    SquashWord(w, Lower(g) + Lower(WordsText(rest)), inRun);
    SquashGap(g, Lower(WordsText(rest)), false);
    if rest == [] {
      assert Squash(Lower(WordsText(rest)), g != "") == "";
      assert LoweredWords(words) == [Lower(w)];
      assert Lower(w) + ((if g == "" then "" else "_") + "") == Lower(w) + (if g == "" then "" else "_");
    } else {
      assert words[0].1 != "";
      forall i | 0 <= i < |rest| ensures Word(rest[i].0) && Gap(rest[i].1) { assert rest[i] == words[i + 1]; }
      forall i | 0 <= i < |rest| - 1 ensures rest[i].1 != "" { assert rest[i] == words[i + 1]; }
      SquashWords(rest, true);
      assert LoweredWords(words)[1..] == LoweredWords(rest) && LoweredWords(rest) != [];
      var tail := if words[|words| - 1].1 == "" then "" else "_";
      Spliced(Lower(w), "_", Join(LoweredWords(rest), "_"), tail);
    }
  }

  lemma Spliced(a: string, b: string, c: string, d: string)
    ensures a + (b + (c + d)) == a + b + c + d
  {
  }

  /** The base of an id is its words in lower case, with one underscore between two. */
  lemma BaseIsWords(lead: string, words: seq<(string, string)>)
    requires Gap(lead) && WordsOk(words)
    ensures Base(lead + WordsText(words)) == Join(LoweredWords(words), "_")
  {
    var text := WordsText(words);
    LowerApart(lead, text);
    SquashGap(lead, Lower(text), false);
    if words == [] {
      assert Squash(Lower(text), lead != "") == "";
      assert Squash(Lower(lead + text), false) == if lead == "" then "" else "_";
      assert StripFront("_", '_') == StripFront("", '_') == "";
    } else {
      SquashWords(words, lead != "");
      var j := Join(LoweredWords(words), "_");
      WordsEdges(words);
      Stripped(if lead == "" then "" else "_", j, if words[|words| - 1].1 == "" then "" else "_");
    }
  }

  lemma Stripped(front: string, j: string, back: string)
    requires j != "" && j[0] != '_' && j[|j| - 1] != '_' && front in ["", "_"] && back in ["", "_"]
    ensures StripBack(StripFront(front + (j + back), '_'), '_') == j
  {
    if front == "_" {
      assert (front + (j + back))[1..] == j + back;
    } else {
      assert front + (j + back) == j + back;
    }
    assert StripFront(j + back, '_') == j + back;
    if back == "_" {
      assert (j + back)[..|j + back| - 1] == j;
    } else {
      assert j + back == j;
    }
    assert StripBack(j, '_') == j;
  }

  lemma {:induction false} WordsEdges(words: seq<(string, string)>)
    requires words != [] && WordsOk(words)
    ensures var j := Join(LoweredWords(words), "_"); j != "" && j[0] != '_' && j[|j| - 1] != '_'
    decreases |words|
  {
    var w, rest := words[0].0, words[1..];
    var low := Lower(w);
    assert w[0] in w && low[0] == LowerChar(w[0]);
    assert w[|w| - 1] in w && low[|w| - 1] == LowerChar(w[|w| - 1]);
    assert LoweredWords(words)[1..] == LoweredWords(rest);
    if rest != [] {
      forall i | 0 <= i < |rest| ensures Word(rest[i].0) && Gap(rest[i].1) { assert rest[i] == words[i + 1]; }
      forall i | 0 <= i < |rest| - 1 ensures rest[i].1 != "" { assert rest[i] == words[i + 1]; }
      WordsEdges(rest);
      var j := Join(LoweredWords(rest), "_");
      assert Join(LoweredWords(words), "_") == low + "_" + j;
    } else {
      assert Join(LoweredWords(words), "_") == low;
    }
  }

  /** Every id is such words after such a gap. */
  lemma {:induction false} WordsOf(id: string) returns (lead: string, words: seq<(string, string)>)
    ensures Gap(lead) && WordsOk(words) && id == lead + WordsText(words)
  {
    if id == "" {
      lead, words := "", [];
    } else {
      var c := [id[0]];
      var l, ws := WordsOf(id[1..]);
      if !LetterOrDigit(id[0]) {
        lead, words := c + l, ws;
        assert c + (l + WordsText(ws)) == c + l + WordsText(ws);
      } else if l == "" && ws != [] {
        lead, words := "", [(c + ws[0].0, ws[0].1)] + ws[1..];
        assert words[1..] == ws[1..];
        assert c + ws[0].0 + (ws[0].1 + WordsText(ws[1..])) == c + (ws[0].0 + (ws[0].1 + WordsText(ws[1..])));
      } else {
        lead, words := "", [(c, l)] + ws;
        assert words[1..] == ws;
      }
      assert id == c + id[1..];
    }
  }

  /** A slug is the first forty characters of the base, an underscore, and the index in decimal. */
  lemma SlugIs(id: string, index: nat)
    ensures SlugOf(id, index) == (if |Base(id)| <= 40 then Base(id) else Base(id)[..40]) + "_" + Decimal(index)
  {
  }

  // ---------- The shape of a slug ----------

  predicate SlugChar(c: char) {
    LowerAlnum(c) || c == '_'
  }

  predicate NoDouble(s: string) {
    forall i | 0 <= i < |s| - 1 && s[i] == '_' :: s[i + 1] != '_'
  }

  predicate SlugText(s: string) {
    NoDouble(s) && forall c | c in s :: SlugChar(c)
  }

  lemma {:induction false} SquashShape(s: string, inRun: bool)
    ensures SlugText(Squash(s, inRun))
    ensures inRun && Squash(s, inRun) != "" ==> Squash(s, inRun)[0] != '_'
  {
    if s != "" {
      SquashShape(s[1..], !LowerAlnum(s[0]));
    }
  }

  lemma {:induction false} StripShape(s: string)
    requires SlugText(s)
    ensures SlugText(StripFront(s, '_')) && SlugText(StripBack(s, '_'))
    decreases |s|
  {
  }

  lemma CutShape(id: string)
    ensures SlugText(Cut(id))
  {
    SquashShape(Lower(id), false);
    StripShape(Squash(Lower(id), false));
    StripShape(StripFront(Squash(Lower(id), false), '_'));
  }

  lemma {:induction false} DecimalShape(n: nat)
    ensures Decimal(n) != "" && forall c | c in Decimal(n) :: '0' <= c <= '9'
  {
    if n >= 10 {
      DecimalShape(n / 10);
    }
  }

  lemma {:induction false} DecimalInjective(m: nat, n: nat)
    requires Decimal(m) == Decimal(n)
    ensures m == n
  {
    DecimalShape(m / 10);
    DecimalShape(n / 10);
    if m < 10 || n < 10 {
      assert |Decimal(m)| == |Decimal(n)|;
    } else {
      assert Decimal(m)[..|Decimal(m)| - 1] == Decimal(m / 10);
      assert Decimal(n)[..|Decimal(n)| - 1] == Decimal(n / 10);
      DecimalInjective(m / 10, n / 10);
      assert Decimal(m)[|Decimal(m)| - 1] == Digit(m % 10) && Decimal(n)[|Decimal(n)| - 1] == Digit(n % 10);
    }
  }

  /** Equal slugs have equal indices, for all ids: truncation cannot make two converge. */
  lemma SlugInjective(a: string, i: nat, b: string, j: nat)
    requires SlugOf(a, i) == SlugOf(b, j)
    ensures i == j
  {
    DecimalShape(i);
    DecimalShape(j);
    SameAroundLast(Cut(a), Decimal(i), Cut(b), Decimal(j), '_');
    DecimalInjective(i, j);
  }

  lemma DoubleInCut(c: string, d: string, k: nat)
    requires var s := c + "_" + d; k + 1 < |c| && s[k] == '_' == s[k + 1]
    ensures !NoDouble(c)
  {
  }

  lemma DoubleInIndex(c: string, d: string, k: nat)
    requires var s := c + "_" + d; |c| <= k < |s| - 1 && s[k + 1] == '_'
    ensures '_' in d
  {
  }

  /** A slug ends in a digit, and has a double underscore only where the cut ends in one. */
  lemma SlugShape(id: string, i: nat)
    ensures var s := SlugOf(id, i);
            && |s| >= 2 && '0' <= s[|s| - 1] <= '9'
            && (forall c | c in s :: SlugChar(c))
            && forall k | 0 <= k < |s| - 1 && s[k] == '_' == s[k + 1] :: Cut(id) == s[..k] + "_"
  {
    CutShape(id);
    DecimalShape(i);
    var c, d, s := Cut(id), Decimal(i), SlugOf(id, i);
    assert s[|s| - 1] == d[|d| - 1] && d[|d| - 1] in d;
    forall k | 0 <= k < |s| - 1 && s[k] == '_' == s[k + 1] ensures c == s[..k] + "_" {
      if k + 1 < |c| {
        DoubleInCut(c, d, k);
      } else if k >= |c| {
        DoubleInIndex(c, d, k);
      } else {
        assert c == s[..k + 1];
      }
    }
  }

  // ---------- Whose environment ----------

  /** Two scenarios use one slug exactly when they have one id. */
  lemma SameSlugSameId(ids: seq<string>, i: nat, j: nat)
    requires i < |ids| && j < |ids|
    ensures SlugUsed(ids, i) == SlugUsed(ids, j) <==> ids[i] == ids[j]
  {
    if SlugUsed(ids, i) == SlugUsed(ids, j) {
      SlugInjective(ids[i], Provider(ids, i), ids[j], Provider(ids, j));
    }
  }

  /**
   * Scenario i's prefix is on scenario j's environment exactly when they have one id, or
   * the 40-character cut of one id ends in an underscore right after the other's whole slug.
   */
  predicate Mistaken(ids: seq<string>, i: nat, j: nat, logical: string)
    requires i < |ids| && j < |ids|
  {
    || Cut(ids[j]) == SlugUsed(ids, i) + "_"
    || (Cut(ids[i]) == SlugUsed(ids, j) + "_" && Decimal(Provider(ids, i)) + "__" <= logical)
  }

  lemma ClaimsIff(ids: seq<string>, i: nat, j: nat, logical: string)
    requires i < |ids| && j < |ids|
    ensures Claims(ids, i, EnvFor(ids, j, logical)) <==> ids[i] == ids[j] || Mistaken(ids, i, j, logical)
  {
    var s, t := SlugUsed(ids, i), SlugUsed(ids, j);
    if Mistaken(ids, i, j, logical) {
      MistakenClaims(ids, i, j, logical);
    }
    if Claims(ids, i, EnvFor(ids, j, logical)) {
      if |s| == |t| {
        assert s == EnvFor(ids, j, logical)[..|s|] == t;
        SameSlugSameId(ids, i, j);
      } else if |s| < |t| {
        ShorterClaims(ids, i, j, logical);
      } else {
        LongerClaims(ids, i, j, logical);
      }
    }
  }

  /** A cut ending in an underscore after slug t: the claim comes down to the logical name. */
  lemma ClaimAfterCut(c: string, d: string, t: string, logical: string)
    requires c == t + "_"
    ensures (c + "_" + d) + "__" <= t + "__" + logical <==> d + "__" <= logical
  {
    assert c + "_" == t + "__";
    assert (c + "_" + d) + "__" == (t + "__") + (d + "__");
    PrefixAfter(t + "__", d + "__", logical);
  }

  lemma ClaimOfCut(c: string, d: string, s: string, logical: string)
    requires c == s + "_"
    ensures s + "__" <= (c + "_" + d) + "__" + logical
  {
  }

  lemma MistakenClaims(ids: seq<string>, i: nat, j: nat, logical: string)
    requires i < |ids| && j < |ids| && Mistaken(ids, i, j, logical)
    ensures Claims(ids, i, EnvFor(ids, j, logical))
  {
    var s, t := SlugUsed(ids, i), SlugUsed(ids, j);
    if Cut(ids[j]) == s + "_" {
      ClaimOfCut(Cut(ids[j]), Decimal(Provider(ids, j)), s, logical);
    } else {
      ClaimAfterCut(Cut(ids[i]), Decimal(Provider(ids, i)), t, logical);
    }
  }

  lemma ShorterClaims(ids: seq<string>, i: nat, j: nat, logical: string)
    requires i < |ids| && j < |ids| && Claims(ids, i, EnvFor(ids, j, logical))
    requires |SlugUsed(ids, i)| < |SlugUsed(ids, j)|
    ensures Cut(ids[j]) == SlugUsed(ids, i) + "_"
  {
    var s, t, e := SlugUsed(ids, i), SlugUsed(ids, j), EnvFor(ids, j, logical);
    SlugShape(ids[j], Provider(ids, j));
    assert e[|s|] == (s + "__")[|s|] && e[|s| + 1] == (s + "__")[|s| + 1];
    assert e[|s|] == t[|s|];
    assert |s| + 1 < |t|;
    assert e[|s| + 1] == t[|s| + 1];
    assert t[..|s|] == e[..|s|] == s;
  }

  lemma LongerClaims(ids: seq<string>, i: nat, j: nat, logical: string)
    requires i < |ids| && j < |ids| && Claims(ids, i, EnvFor(ids, j, logical))
    requires |SlugUsed(ids, i)| > |SlugUsed(ids, j)|
    ensures Cut(ids[i]) == SlugUsed(ids, j) + "_" && Decimal(Provider(ids, i)) + "__" <= logical
  {
    var s, t, e := SlugUsed(ids, i), SlugUsed(ids, j), EnvFor(ids, j, logical);
    SlugShape(ids[i], Provider(ids, i));
    assert s == e[..|s|];
    assert s[|t|] == e[|t|] == '_';
    assert |t| + 1 < |s|;
    assert s[|t| + 1] == e[|t| + 1] == '_';
    assert s[..|t|] == e[..|t|] == t;
    ClaimAfterCut(Cut(ids[i]), Decimal(Provider(ids, i)), t, logical);
  }

  /**
   * The loop gives an environment the resources it was named by exactly when no scenario after
   * the last with its id is mistaken for it.
   */
  lemma OwnerIsOwn(ids: seq<string>, j: nat, logical: string)
    requires j < |ids|
    ensures Owner(ids, EnvFor(ids, j, logical)) == Some(Provider(ids, j))
       <==> forall i | Provider(ids, j) < i < |ids| :: !Mistaken(ids, i, j, logical)
  {
    forall i | 0 <= i < |ids|
      ensures Claims(ids, i, EnvFor(ids, j, logical)) <==> ids[i] == ids[j] || Mistaken(ids, i, j, logical)
    {
      ClaimsIff(ids, i, j, logical);
    }
    var k := LastClaimant(ids, |ids|, EnvFor(ids, j, logical));
    LastClaimantIs(ids, |ids|, EnvFor(ids, j, logical));
    ProviderIsLast(ids, j);
    assert Claims(ids, Provider(ids, j), EnvFor(ids, j, logical));
    assert k.Some? && k.value >= Provider(ids, j);
    if ids[k.value] == ids[j] {
      assert k.value == Provider(ids, j);
    } else {
      assert Mistaken(ids, k.value, j, logical);
      assert ids[Provider(ids, k.value)] == ids[k.value];
    }
  }

  /** The cut of the id ends in an underscore. */
  predicate CutAtUnderscore(id: string) {
    var c := Cut(id);
    c != "" && c[|c| - 1] == '_'
  }

  /** With no id cut at an underscore, every environment is claimed by the scenarios of its id alone. */
  lemma SoleOwner(ids: seq<string>, i: nat, j: nat, logical: string)
    requires i < |ids| && j < |ids| && !CutAtUnderscore(ids[i]) && !CutAtUnderscore(ids[j])
    ensures Claims(ids, i, EnvFor(ids, j, logical)) <==> ids[i] == ids[j]
  {
    ClaimsIff(ids, i, j, logical);
  }

  // ---------- Distinct resources ----------

  /** Two scenarios use one source database exactly when they have one id. */
  lemma SourceDbsSharedIff(ids: seq<string>, i: nat, j: nat)
    requires i < |ids| && j < |ids|
    ensures SourceDb(ids, i) == SourceDb(ids, j) <==> ids[i] == ids[j]
  {
    SameSlugSameId(ids, i, j);
    assert SlugUsed(ids, i) == SourceDb(ids, i)[4..] && SlugUsed(ids, j) == SourceDb(ids, j)[4..];
  }

  /** A copied scenario that keeps its id: both use the second one's everything. */
  lemma CopiedScenarioShares(id: string, logical: string, conn: string, workdir: Path, name: string)
    ensures var ids := [id, id];
            && SlugUsed(ids, 0) == SlugUsed(ids, 1) == SlugOf(id, 1)
            && SourceDb(ids, 0) == SourceDb(ids, 1) && EnvFor(ids, 0, logical) == EnvFor(ids, 1, logical)
            && CatalogDbFor(ids, 0, conn) == CatalogDbFor(ids, 1, conn)
            && ServerRoot(workdir, ids, 0, name) == ServerRoot(workdir, ids, 1, name)
  {
    assert Provider([id, id], 0) == 1 == Provider([id, id], 1);
  }

  // ---------- Server roots ----------

  /** Going down from depth levels below a directory, the parts never climb above it. */
  predicate StaysBelow(depth: nat, parts: seq<string>)
    decreases |parts|
  {
    parts == [] ||
    if parts[0] == ".." then depth > 0 && StaysBelow(depth - 1, parts[1..])
    else StaysBelow(if IsName(parts[0]) then depth + 1 else depth, parts[1..])
  }

  /** What is left of the parts once they have climbed above it. */
  function PastTop(depth: nat, parts: seq<string>): seq<string>
    requires !StaysBelow(depth, parts)
    decreases |parts|
  {
    if parts[0] == ".." then if depth == 0 then parts[1..] else PastTop(depth - 1, parts[1..])
    else PastTop(if IsName(parts[0]) then depth + 1 else depth, parts[1..])
  }

  lemma EnterBelow(base: Path, down: Path, part: string)
    requires part == ".." ==> down != []
    ensures Enter(base + down, part) == base + Enter(down, part)
  {
    if part == ".." {
      assert (base + down)[..|base + down| - 1] == base + down[..|down| - 1];
    }
  }

  lemma {:induction false} CollapseBelow(base: Path, down: Path, parts: seq<string>)
    requires StaysBelow(|down|, parts)
    ensures Collapse(base + down, parts) == base + Collapse(down, parts)
    decreases |parts|
  {
    if parts != [] {
      EnterBelow(base, down, parts[0]);
      CollapseBelow(base, Enter(down, parts[0]), parts[1..]);
    }
  }

  /** Parts that climb above a directory end where it does not matter which directory it was. */
  lemma {:induction false} CollapsePast(base: Path, top: string, down: Path, parts: seq<string>)
    requires !StaysBelow(|down|, parts)
    ensures Collapse(base + [top] + down, parts) == Collapse(base, PastTop(|down|, parts))
    decreases |parts|
  {
    if parts[0] == ".." && down == [] {
      assert base + [top] + down == base + [top];
      assert Enter(base + [top], "..") == base;
    } else {
      EnterBelow(base + [top], down, parts[0]);
      CollapsePast(base, top, Enter(down, parts[0]), parts[1..]);
    }
  }

  /** The parts of a publisher name past its first slash. */
  function Below(name: string): seq<string> {
    Parts(name)[1..]
  }

  /** A name that stays inside the directory its first part names. */
  predicate Stays(name: string) {
    StaysBelow(0, Below(name))
  }

  /** Such a name, normalised: its first part, which is glued to the slug, and the rest collapsed. */
  function Normal(name: string): Path {
    [Parts(name)[0]] + Collapse([], Below(name))
  }

  function Top(ids: seq<string>, i: nat, name: string): string
    requires i < |ids|
  {
    "server-" + SlugUsed(ids, i) + "-" + Parts(name)[0]
  }

  lemma SlugHasNo(ids: seq<string>, i: nat)
    requires i < |ids|
    ensures '/' !in SlugUsed(ids, i) && '-' !in SlugUsed(ids, i)
  {
    SlugShape(ids[i], Provider(ids, i));
  }

  lemma RootIsBelowTop(workdir: Path, ids: seq<string>, i: nat, name: string)
    requires i < |ids|
    ensures ServerRoot(workdir, ids, i, name) == Collapse(workdir + [Top(ids, i, name)], Below(name))
  {
    var front := "server-" + (SlugUsed(ids, i) + "-");
    SlugHasNo(ids, i);
    SplitOnAfter(front, name, '/');
    var top := front + Parts(name)[0];
    assert top == Top(ids, i, name) && top[0] == 's' && IsName(top);
    assert Parts(Cluster.RootLeaf(SlugUsed(ids, i) + "-", name)) == [top] + Below(name);
    assert Enter(workdir, top) == workdir + [top] && ([top] + Below(name))[1..] == Below(name);
  }

  lemma SameTop(ids: seq<string>, i: nat, name: string, j: nat, name': string)
    requires i < |ids| && j < |ids|
    ensures Top(ids, i, name) == Top(ids, j, name') <==> ids[i] == ids[j] && Parts(name)[0] == Parts(name')[0]
  {
    var s, t, x, y := SlugUsed(ids, i), SlugUsed(ids, j), Parts(name)[0], Parts(name')[0];
    SameSlugSameId(ids, i, j);
    SlugHasNo(ids, i);
    SlugHasNo(ids, j);
    DashParts("server-", s, x, t, y);
  }

  lemma DashParts(front: string, s: string, x: string, t: string, y: string)
    requires '-' !in s && '-' !in t
    ensures front + s + "-" + x == front + t + "-" + y <==> s == t && x == y
  {
    var a, b := s + ['-'] + x, t + ['-'] + y;
    assert front + s + "-" + x == front + a && front + t + "-" + y == front + b;
    if front + a == front + b {
      assert a == (front + a)[|front|..] == (front + b)[|front|..] == b;
      SameAroundFirst(s, x, t, y, '-');
    }
  }

  /** For names that stay inside, two roots are one exactly when ids and normalised names are. */
  lemma ServerRootsSharedIff(workdir: Path, ids: seq<string>, i: nat, name: string, j: nat, name': string)
    requires i < |ids| && j < |ids| && Stays(name) && Stays(name')
    ensures ServerRoot(workdir, ids, i, name) == ServerRoot(workdir, ids, j, name')
       <==> ids[i] == ids[j] && Normal(name) == Normal(name')
  {
    RootStays(workdir, ids, i, name);
    RootStays(workdir, ids, j, name');
    SameTop(ids, i, name, j, name');
    SameAfterHead(workdir, Top(ids, i, name), Collapse([], Below(name)), Top(ids, j, name'), Collapse([], Below(name')));
    SameAfterHead([], Parts(name)[0], Collapse([], Below(name)), Parts(name')[0], Collapse([], Below(name')));
    assert [] + [Parts(name)[0]] == [Parts(name)[0]] && [] + [Parts(name')[0]] == [Parts(name')[0]];
  }

  lemma RootStays(workdir: Path, ids: seq<string>, i: nat, name: string)
    requires i < |ids| && Stays(name)
    ensures ServerRoot(workdir, ids, i, name) == workdir + [Top(ids, i, name)] + Collapse([], Below(name))
  {
    RootIsBelowTop(workdir, ids, i, name);
    var top := workdir + [Top(ids, i, name)];
    assert top + [] == top;
    CollapseBelow(top, [], Below(name));
  }

  lemma SameAfterHead(front: Path, a: string, x: Path, b: string, y: Path)
    ensures front + [a] + x == front + [b] + y <==> a == b && x == y
  {
    var p, q := front + [a] + x, front + [b] + y;
    if p == q {
      assert a == p[|front|] == q[|front|] == b;
      assert x == p[|front| + 1..] == q[|front| + 1..] == y;
    }
  }

  /** Names whose parts past the first are all proper; those without a slash are among them. */
  predicate ProperName(name: string) {
    Names(Below(name))
  }

  lemma {:induction false} NamesStay(depth: nat, down: Path, parts: seq<string>)
    requires Names(parts)
    ensures StaysBelow(depth, parts) && Collapse(down, parts) == down + parts
    decreases |parts|
  {
    if parts != [] {
      assert parts[0] in parts;
      NamesStay(depth + 1, down + [parts[0]], parts[1..]);
      assert down + [parts[0]] + parts[1..] == down + parts;
    } else {
      assert down + parts == down;
    }
  }

  /** Publishers of different ids or of different proper names have roots of their own. */
  lemma ServerRootsDistinct(workdir: Path, ids: seq<string>, i: nat, name: string, j: nat, name': string)
    requires i < |ids| && j < |ids| && ProperName(name) && ProperName(name') && (ids[i], name) != (ids[j], name')
    ensures ServerRoot(workdir, ids, i, name) != ServerRoot(workdir, ids, j, name')
  {
    NamesStay(0, [], Below(name));
    NamesStay(0, [], Below(name'));
    ServerRootsSharedIff(workdir, ids, i, name, j, name');
    NormalIsParts(name);
    NormalIsParts(name');
    JoinSplit(name, '/');
    JoinSplit(name', '/');
  }

  lemma NormalIsParts(name: string)
    requires ProperName(name)
    ensures Normal(name) == Parts(name)
  {
    NamesStay(0, [], Below(name));
    assert [] + Below(name) == Below(name) && [Parts(name)[0]] + Below(name) == Parts(name);
  }

  /** Under one name, scenarios of different ids share a root exactly when the name climbs out of it. */
  lemma SameNameSharedIff(workdir: Path, ids: seq<string>, i: nat, j: nat, name: string)
    requires i < |ids| && j < |ids| && ids[i] != ids[j]
    ensures ServerRoot(workdir, ids, i, name) == ServerRoot(workdir, ids, j, name) <==> !Stays(name)
  {
    if Stays(name) {
      ServerRootsSharedIff(workdir, ids, i, name, j, name);
    } else {
      RootPast(workdir, ids, i, name);
      RootPast(workdir, ids, j, name);
    }
  }

  lemma RootPast(workdir: Path, ids: seq<string>, i: nat, name: string)
    requires i < |ids| && !Stays(name)
    ensures ServerRoot(workdir, ids, i, name) == Collapse(workdir, PastTop(0, Below(name)))
  {
    RootIsBelowTop(workdir, ids, i, name);
    assert workdir + [Top(ids, i, name)] + [] == workdir + [Top(ids, i, name)];
    CollapsePast(workdir, Top(ids, i, name), [], Below(name));
  }

  /** Two names, and so two pairs of ports, with one root between them. */
  lemma DoubledSlashShares(workdir: Path, ids: seq<string>, i: nat, a: string, b: string)
    requires i < |ids| && '/' !in a
    ensures ServerRoot(workdir, ids, i, a + "/" + b) == ServerRoot(workdir, ids, i, a + "//" + b)
  {
    SplitOnNone(a, '/');
    SplitOnSeparator(a, '/', b);
    SplitOnSeparator(a, '/', "/" + b);
    SplitOnSeparator("", '/', b);
    assert "" + ['/'] + b == "/" + b && a + ['/'] + ("/" + b) == a + "//" + b && a + ['/'] + b == a + "/" + b;
    assert Parts(a + "/" + b) == [a] + Parts(b) && Parts(a + "//" + b) == [a] + ([""] + Parts(b));
    assert Below(a + "/" + b) == Parts(b) && Below(a + "//" + b) == [""] + Parts(b);
    RootIsBelowTop(workdir, ids, i, a + "/" + b);
    RootIsBelowTop(workdir, ids, i, a + "//" + b);
    assert ([""] + Parts(b))[1..] == Parts(b);
  }

  /** A name by which one scenario's publisher gets the root of another's. */
  function ClimbingName(x: string, ids: seq<string>, j: nat, name: string): string
    requires j < |ids|
  {
    x + "/../" + Cluster.RootLeaf(SlugUsed(ids, j) + "-", name)
  }

  lemma ClimbingNameShares(workdir: Path, ids: seq<string>, i: nat, x: string, j: nat, name: string)
    requires i < |ids| && j < |ids| && '/' !in x
    ensures ServerRoot(workdir, ids, i, ClimbingName(x, ids, j, name)) == ServerRoot(workdir, ids, j, name)
  {
    var leaf := Cluster.RootLeaf(SlugUsed(ids, j) + "-", name);
    var mine := ClimbingName(x, ids, j, name);
    SplitOnNone(x, '/');
    SplitOnSeparator("..", '/', leaf);
    SplitOnNone("..", '/');
    SplitOnSeparator(x, '/', "../" + leaf);
    assert ".." + ['/'] + leaf == "../" + leaf && x + ['/'] + ("../" + leaf) == mine;
    assert Parts(mine) == [x] + ([".."] + Parts(leaf)) && Below(mine) == [".."] + Parts(leaf);
    assert !Stays(mine) && PastTop(0, Below(mine)) == Parts(leaf);
    RootPast(workdir, ids, i, mine);
  }

  lemma SameRests(front: string, s: string, sep: string, x: string, t: string, y: string)
    requires front + s + sep + x == front + t + sep + y
    ensures s + sep <= t + sep + y
    ensures s == t ==> x == y
  {
    var a, b := s + sep + x, t + sep + y;
    assert front + s + sep + x == front + a && front + t + sep + y == front + b;
    assert a == (front + a)[|front|..] == (front + b)[|front|..] == b;
    assert x == a[|s + sep|..] && y == b[|t + sep|..];
  }

  /** A cut that is another slug and an underscore: when the catalogs built on the two slugs are one. */
  lemma CutCatalog(c: string, d: string, s: string, x: string, y: string)
    requires c == s + "_"
    ensures "cat_" + s + "__" + x == "cat_" + (c + "_" + d) + "__" + y <==> x == d + "__" + y
  {
    var front := "cat_" + s + "__";
    assert "cat_" + (c + "_" + d) + "__" + y == front + (d + "__" + y);
    assert x == (front + x)[|front|..] && d + "__" + y == (front + (d + "__" + y))[|front|..];
  }

  /** Scenario j's cut ends in scenario i's slug and an underscore, and i's connection name supplies the rest. */
  predicate SharedCatalog(ids: seq<string>, i: nat, conn: string, j: nat, conn': string)
    requires i < |ids| && j < |ids|
  {
    Cut(ids[j]) == SlugUsed(ids, i) + "_" && conn == Decimal(Provider(ids, j)) + "__" + conn'
  }

  /** Exactly when two connections, of one scenario or of two, share a catalog. */
  lemma CatalogsSharedIff(ids: seq<string>, i: nat, conn: string, j: nat, conn': string)
    requires i < |ids| && j < |ids|
    ensures CatalogDbFor(ids, i, conn) == CatalogDbFor(ids, j, conn')
       <==> || (ids[i] == ids[j] && conn == conn')
            || SharedCatalog(ids, i, conn, j, conn') || SharedCatalog(ids, j, conn', i, conn)
  {
    var s, t := SlugUsed(ids, i), SlugUsed(ids, j);
    SameSlugSameId(ids, i, j);
    if Cut(ids[j]) == s + "_" {
      CutCatalog(Cut(ids[j]), Decimal(Provider(ids, j)), s, conn, conn');
    }
    if Cut(ids[i]) == t + "_" {
      CutCatalog(Cut(ids[i]), Decimal(Provider(ids, i)), t, conn', conn);
    }
    if CatalogDbFor(ids, i, conn) == CatalogDbFor(ids, j, conn') {
      SameRests("cat_", s, "__", conn, t, conn');
      ClaimsIff(ids, i, j, conn');
    }
  }

  /** Catalogs of different ids or connections differ when neither id is cut at an underscore. */
  lemma CatalogsDistinct(ids: seq<string>, i: nat, conn: string, j: nat, conn': string)
    requires i < |ids| && j < |ids| && !CutAtUnderscore(ids[i]) && !CutAtUnderscore(ids[j])
    requires (ids[i], conn) != (ids[j], conn')
    ensures CatalogDbFor(ids, i, conn) != CatalogDbFor(ids, j, conn')
  {
    if CatalogDbFor(ids, i, conn) == CatalogDbFor(ids, j, conn') {
      SameRests("cat_", SlugUsed(ids, i), "__", conn, SlugUsed(ids, j), conn');
      SoleOwner(ids, i, j, conn');
    }
  }

  // ---------- An environment given to the wrong scenario ----------

  lemma {:induction false} SquashFixed(s: string, inRun: bool)
    requires SlugText(s) && (inRun && s != "" ==> s[0] != '_')
    ensures Squash(s, inRun) == s
  {
    if s != "" {
      assert SlugChar(s[0]);
      forall c | c in s[1..] ensures SlugChar(c) { assert c in s; }
      forall i | 0 <= i < |s| - 2 && s[1..][i] == '_' ensures s[1..][i + 1] != '_' { assert s[i + 1] == '_'; }
      SquashFixed(s[1..], s[0] == '_');
      assert s == [s[0]] + s[1..];
    }
  }

  lemma BaseFixed(s: string)
    requires SlugText(s) && s != "" && s[0] != '_' && s[|s| - 1] != '_'
    ensures Base(s) == s
  {
    forall i | 0 <= i < |s| ensures Lower(s)[i] == s[i] { assert s[i] in s; }
    assert Lower(s) == s;
    SquashFixed(s, false);
  }

  const LONG_ID: string := seq(37, _ => 'a')

  /** Two ids for which the second scenario is given the first one's environment. */
  lemma OwnerMistaken()
    ensures var ids := [LONG_ID + "_1_x", LONG_ID];
            Mistaken(ids, 1, 0, "default") && Owner(ids, EnvFor(ids, 0, "default")) == Some(1)
  {
    var ids := [LONG_ID + "_1_x", LONG_ID];
    BaseFixed(LONG_ID);
    BaseFixed(ids[0]);
    assert Decimal(1) == "1";
    assert ids[0][..40] == LONG_ID + "_" + "1" + "_";
    ClaimsIff(ids, 1, 0, "default");
  }
}
