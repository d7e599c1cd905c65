/**
 * Slugs. `Slugify` is the chain of string operations three services share; its meaning is "the words
 * of the text joined by dashes". `EnsureUniqueSlug` is the unbounded search for a free slug.
 */
module Slugs {
  import opened Common
  import Decimal

  predicate IsWordChar(c: char) {
    'a' <= c <= 'z' || '0' <= c <= '9'
  }

  /** Lower-casing of one character; `fold` says what happens outside ASCII, possibly to several. */
  function LowerChar(fold: char -> string, c: char): string {
    if 'A' <= c <= 'Z' then [(c as int + 32) as char]
    else if c as int < 128 then [c]
    else fold(c)
  }

  function ToLowerCase(fold: char -> string, s: string): string {
    if s == "" then "" else LowerChar(fold, s[0]) + ToLowerCase(fold, s[1..])
  }

  predicate IsSpace(c: char) {
    var n := c as int;
    || 9 <= n <= 13 || n == 32 || n == 0xA0 || n == 0x1680 || 0x2000 <= n <= 0x200A
    || n == 0x2028 || n == 0x2029 || n == 0x202F || n == 0x205F || n == 0x3000 || n == 0xFEFF
  }

  function TrimStart(s: string): string {
    if s == "" || !IsSpace(s[0]) then s else TrimStart(s[1..])
  }

  function TrimEnd(s: string): string {
    if s == "" || !IsSpace(s[|s| - 1]) then s else TrimEnd(s[..|s| - 1])
  }

  function SkipOthers(s: string): (r: string)
    ensures |r| <= |s| && (r == "" || IsWordChar(r[0]))
    ensures s != "" && !IsWordChar(s[0]) ==> |r| < |s|
  {
    if s == "" || IsWordChar(s[0]) then s else SkipOthers(s[1..])
  }

  /** Every maximal run of other characters becomes one dash. */
  function DashRuns(s: string): string
    decreases |s|
  {
    if s == "" then ""
    else if IsWordChar(s[0]) then [s[0]] + DashRuns(s[1..])
    else "-" + DashRuns(SkipOthers(s))
  }

  function StripStart(s: string): string {
    if s == "" || s[0] != '-' then s else StripStart(s[1..])
  }

  function StripEnd(s: string): string {
    if s == "" || s[|s| - 1] != '-' then s else StripEnd(s[..|s| - 1])
  }

  function Slugify(fold: char -> string, value: string): string {
    StripEnd(StripStart(DashRuns(TrimEnd(TrimStart(ToLowerCase(fold, value))))))
  }

  // ---- The characters -------------------------------------------------------------------------

  /** Letters and digits of ASCII, lower case. */
  lemma {:induction false} WordCharsAre(c: char)
    ensures IsWordChar(c) <==> c in "abcdefghijklmnopqrstuvwxyz0123456789"
  {
  }

  /** ASCII capitals become small, other ASCII stays, and the rest is up to `fold`. */
  lemma {:induction false} LowerCharsAre(fold: char -> string, i: nat, c: char)
    ensures i < 26 ==> LowerChar(fold, "ABCDEFGHIJKLMNOPQRSTUVWXYZ"[i]) == ["abcdefghijklmnopqrstuvwxyz"[i]]
    ensures c !in "ABCDEFGHIJKLMNOPQRSTUVWXYZ" ==>
              LowerChar(fold, c) == if c <= 127 as char then [c] else fold(c)
  {
  }

  /** Lower-casing goes character by character. */
  lemma {:induction false} LowerConcat(fold: char -> string, a: string, b: string)
    ensures ToLowerCase(fold, a + b) == ToLowerCase(fold, a) + ToLowerCase(fold, b)
    ensures a != "" && b == "" && |a| == 1 ==> ToLowerCase(fold, a) == LowerChar(fold, a[0])
  {
    if a == "" {
      assert a + b == b;
    } else {
      assert (a + b)[1..] == a[1..] + b;
      LowerConcat(fold, a[1..], b);
    }
  }

  /** White space and line ends, in the sense of ECMA-262. */
  lemma {:induction false} SpacesAre(c: char)
    ensures IsSpace(c) <==>
              c as int in {9, 10, 11, 12, 13, 32, 160, 5760, 8192, 8193, 8194, 8195, 8196, 8197, 8198, 8199, 8200,
                           8201, 8202, 8232, 8233, 8239, 8287, 12288, 65279}
  {
  }

  // ---- What a slug is -------------------------------------------------------------------------

  /** The leading run of word characters. */
  function FirstWord(s: string): (w: string)
    ensures |w| <= |s| && w == s[..|w|]
    ensures forall c :: c in w ==> IsWordChar(c)
    ensures |w| < |s| ==> !IsWordChar(s[|w|])
    ensures s != "" && IsWordChar(s[0]) ==> w != ""
  {
    if s == "" || !IsWordChar(s[0]) then "" else [s[0]] + FirstWord(s[1..])
  }

  /** The maximal runs of word characters, in order. */
  function Words(s: string): seq<string>
    decreases |s|
  {
    if s == "" then []
    else if IsWordChar(s[0]) then [FirstWord(s)] + Words(s[|FirstWord(s)|..])
    else Words(s[1..])
  }

  function Join(ws: seq<string>): string {
    if ws == [] then ""
    else if |ws| == 1 then ws[0]
    else ws[0] + "-" + Join(ws[1..])
  }

  predicate IsWord(w: string) {
    w != "" && forall c | c in w :: IsWordChar(c)
  }

  predicate AllWords(ws: seq<string>) {
    forall i | 0 <= i < |ws| :: IsWord(ws[i])
  }

  lemma {:induction false} WordsAreWords(s: string)
    ensures AllWords(Words(s))
    decreases |s|
  {
    if s != "" {
      WordsAreWords(if IsWordChar(s[0]) then s[|FirstWord(s)|..] else s[1..]);
    }
  }

  lemma {:induction false} WordsUnfold(s: string, w: string, rest: string)
    requires s != "" && IsWordChar(s[0]) && FirstWord(s) == w && s[|w|..] == rest
    ensures Words(s) == [w] + Words(rest)
  {
  }

  lemma {:induction false} WordsFromWord(a: string, rest: string)
    requires a != "" && IsWordChar(a[0]) && (rest == "" || !IsWordChar(rest[0]))
    ensures Words(a + rest) == [FirstWord(a)] + Words(a[|FirstWord(a)|..] + rest)
  {
    var n := |FirstWord(a)|;
    FirstWordExtends(a, rest);
    assert (a + rest)[n..] == a[n..] + rest;
    WordsUnfold(a + rest, FirstWord(a), a[n..] + rest);
  }

  lemma {:induction false} WordsFromOther(a: string, rest: string)
    requires a != "" && !IsWordChar(a[0])
    ensures Words(a + rest) == Words(a[1..] + rest)
  {
    assert (a + rest)[1..] == a[1..] + rest;
  }

  /** Any other character separates: with `WholeWord`, this says what the words of a text are. */
  lemma {:induction false} WordsSplit(a: string, c: char, b: string)
    requires !IsWordChar(c)
    ensures Words(a + ([c] + b)) == Words(a) + Words(b)
    decreases |a|
  {
    var rest := [c] + b;
    if a == "" {
      assert a + rest == rest && rest[1..] == b;
    } else if IsWordChar(a[0]) {
      var n := |FirstWord(a)|;
      WordsFromWord(a, rest);
      WordsSplit(a[n..], c, b);
      ConcatAssoc([FirstWord(a)], Words(a[n..]), Words(b));
    } else {
      WordsFromOther(a, rest);
      WordsSplit(a[1..], c, b);
    }
  }

  lemma {:induction false} FirstWordExtends(a: string, rest: string)
    requires rest == "" || !IsWordChar(rest[0])
    ensures FirstWord(a + rest) == FirstWord(a)
  {
    if a == "" {
      assert a + rest == rest;
    } else {
      assert (a + rest)[1..] == a[1..] + rest;
      if IsWordChar(a[0]) { FirstWordExtends(a[1..], rest); }
    }
  }

  /** A word is its only word. */
  lemma {:induction false} WholeWord(a: string)
    requires IsWord(a)
    ensures FirstWord(a) == a && Words(a) == [a]
  {
    assert forall i :: 0 <= i < |a| ==> IsWordChar(a[i]) by { assert forall i :: 0 <= i < |a| ==> a[i] in a; }
    assert a[|a|..] == "";
  }

  lemma {:induction false} WordsSkip(s: string)
    ensures Words(SkipOthers(s)) == Words(s)
    decreases |s|
  {
    if s != "" && !IsWordChar(s[0]) { WordsSkip(s[1..]); }
  }

  lemma {:induction false} WordsTrimStart(s: string)
    ensures Words(TrimStart(s)) == Words(s)
  {
    if s != "" && IsSpace(s[0]) { WordsTrimStart(s[1..]); }
  }

  lemma {:induction false} WordsDropLast(s: string)
    requires s != "" && !IsWordChar(s[|s| - 1])
    ensures Words(s[..|s| - 1]) == Words(s)
    decreases |s|
  {
    var front := s[..|s| - 1];
    if IsWordChar(s[0]) {
      FirstWordOfFront(s);
      var n := |FirstWord(s)|;
      assert s[n..][..|s[n..]| - 1] == front[n..];
      WordsDropLast(s[n..]);
    } else if |s| > 1 {
      assert s[1..][..|s| - 2] == front[1..];
      WordsDropLast(s[1..]);
    }
  }

  lemma {:induction false} FirstWordOfFront(s: string)
    requires s != "" && !IsWordChar(s[|s| - 1])
    ensures FirstWord(s[..|s| - 1]) == FirstWord(s) && |FirstWord(s)| < |s|
  {
  }

  lemma {:induction false} WordsTrimEnd(s: string)
    ensures Words(TrimEnd(s)) == Words(s)
  {
    if s != "" && IsSpace(s[|s| - 1]) {
      WordsDropLast(s);
      WordsTrimEnd(s[..|s| - 1]);
    }
  }

  lemma {:induction false} DashRunsWord(s: string)
    ensures DashRuns(s) == FirstWord(s) + DashRuns(s[|FirstWord(s)|..])
  {
    if s != "" && IsWordChar(s[0]) {
      DashRunsWord(s[1..]);
      var w := FirstWord(s[1..]);
      assert FirstWord(s) == [s[0]] + w && s[1..][|w|..] == s[|w| + 1..];
      ConcatAssoc([s[0]], w, DashRuns(s[|w| + 1..]));
    } else {
      assert s[0..] == s;
    }
  }

  lemma {:induction false} StripEndKeeps(x: string, y: string)
    requires StripEnd(y) != ""
    ensures StripEnd(x + y) == x + StripEnd(y)
    decreases |y|
  {
    if y[|y| - 1] == '-' {
      assert (x + y)[..|x + y| - 1] == x + y[..|y| - 1];
      StripEndKeeps(x, y[..|y| - 1]);
    }
  }

  /** On a text that starts with a word, the dash pipeline already yields the joined words. */
  lemma {:induction false} DashRunsJoin(s: string)
    requires s == "" || IsWordChar(s[0])
    ensures StripEnd(DashRuns(s)) == Join(Words(s))
    ensures s != "" ==> Join(Words(s)) != ""
    decreases |s|
  {
    if s != "" {
      var w := FirstWord(s);
      var rest := s[|w|..];
      DashRunsWord(s);
      if rest == "" {
        assert DashRuns(s) == w;
        StripEndWord(w);
      } else {
        var tail := SkipOthers(rest);
        WordsSkip(rest);
        DashRunsJoin(tail);
        WordBeforeDash(w, tail);
        DashUnfold(rest);
        ConcatAssoc(w, "-", DashRuns(tail));
      }
    }
  }

  lemma {:induction false} DashUnfold(s: string)
    requires s != "" && !IsWordChar(s[0])
    ensures DashRuns(s) == "-" + DashRuns(SkipOthers(s))
  {
  }

  lemma {:induction false} JoinCons(w: string, ws: seq<string>)
    requires ws != []
    ensures Join([w] + ws) == w + "-" + Join(ws)
  {
    assert ([w] + ws)[1..] == ws;
  }

  lemma {:induction false} WordBeforeDash(w: string, tail: string)
    requires IsWord(w) && (tail == "" || IsWordChar(tail[0]))
    requires StripEnd(DashRuns(tail)) == Join(Words(tail)) && (tail != "" ==> Join(Words(tail)) != "")
    ensures StripEnd((w + "-") + DashRuns(tail)) == Join([w] + Words(tail)) != ""
  {
    if tail == "" {
      StripEndWord(w);
    } else {
      StripEndKeeps(w + "-", DashRuns(tail));
      assert Words(tail) != [];
      JoinCons(w, Words(tail));
    }
  }

  lemma {:induction false} StripEndWord(w: string)
    requires IsWord(w)
    ensures StripEnd(w) == w && StripEnd(w + "-" + "") == w
  {
    assert w[|w| - 1] in w;
    assert w + "-" + "" == w + "-" && (w + "-")[..|w|] == w;
  }

  /** The reference meaning: lower-case, take the words, join them with dashes. */
  lemma {:induction false} SlugifyJoinsWords(fold: char -> string, value: string)
    ensures Slugify(fold, value) == Join(Words(ToLowerCase(fold, value)))
  {
    var lower := ToLowerCase(fold, value);
    var s := TrimEnd(TrimStart(lower));
    WordsTrimEnd(TrimStart(lower));
    WordsTrimStart(lower);
    if s != "" && !IsWordChar(s[0]) {
      var tail := SkipOthers(s);
      WordsSkip(s);
      DashRunsJoin(tail);
      assert DashRuns(s) == "-" + DashRuns(tail);
      assert ("-" + DashRuns(tail))[1..] == DashRuns(tail);
      assert StripStart(DashRuns(tail)) == DashRuns(tail);
    } else {
      DashRunsJoin(s);
      assert StripStart(DashRuns(s)) == DashRuns(s);
    }
  }

  lemma {:induction false} WordsOfJoin(ws: seq<string>)
    requires AllWords(ws)
    ensures Words(Join(ws)) == ws
  {
    if ws != [] {
      var w := ws[0];
      assert w in ws;
      if |ws| == 1 {
        FirstWordIs(w, "");
        assert w + "" == w;
      } else {
        var rest := "-" + Join(ws[1..]);
        assert Join(ws) == w + rest;
        FirstWordIs(w, rest);
        assert (w + rest)[|w|..] == rest && rest[1..] == Join(ws[1..]);
        WordsOfJoin(ws[1..]);
      }
    }
  }

  lemma {:induction false} FirstWordIs(w: string, rest: string)
    requires forall c :: c in w ==> IsWordChar(c)
    requires rest == "" || !IsWordChar(rest[0])
    ensures FirstWord(w + rest) == w
  {
    if w == "" {
      assert w + rest == rest;
    } else {
      assert (w + rest)[1..] == w[1..] + rest;
      FirstWordIs(w[1..], rest);
    }
  }

  predicate SlugChar(c: char) {
    IsWordChar(c) || c == '-'
  }

  lemma {:induction false} LowerFixesSlugChars(fold: char -> string, s: string)
    requires forall c :: c in s ==> SlugChar(c)
    ensures ToLowerCase(fold, s) == s
  {
    if s != "" {
      assert s[0] in s;
      LowerFixesSlugChars(fold, s[1..]);
      assert [s[0]] + s[1..] == s;
    }
  }

  lemma {:induction false} JoinChars(ws: seq<string>)
    requires AllWords(ws)
    ensures forall c :: c in Join(ws) ==> SlugChar(c)
  {
    if ws != [] {
      assert ws[0] in ws;
      if |ws| > 1 { JoinChars(ws[1..]); }
    }
  }

  lemma {:induction false} SlugifyIdempotent(fold: char -> string, value: string)
    ensures Slugify(fold, Slugify(fold, value)) == Slugify(fold, value)
  {
    var ws := Words(ToLowerCase(fold, value));
    SlugifyJoinsWords(fold, value);
    SlugifyJoinsWords(fold, Join(ws));
    WordsAreWords(ToLowerCase(fold, value));
    JoinChars(ws);
    LowerFixesSlugChars(fold, Join(ws));
    WordsOfJoin(ws);
  }

  /** Only word characters and single dashes between them. */
  predicate SlugShape(s: string) {
    && (forall c | c in s :: SlugChar(c))
    && (s != "" ==> s[0] != '-' && s[|s| - 1] != '-')
    && forall i | 0 < i < |s| :: s[i - 1] != '-' || s[i] != '-'
  }

  lemma {:induction false} JoinShape(ws: seq<string>)
    requires AllWords(ws)
    ensures SlugShape(Join(ws)) && (ws != [] ==> Join(ws) != "")
  {
    JoinChars(ws);
    if ws != [] {
      var w := ws[0];
      assert w in ws && w[0] in w && w[|w| - 1] in w;
      if |ws| > 1 {
        JoinShape(ws[1..]);
        var s, tail := Join(ws), Join(ws[1..]);
        assert tail == s[|w| + 1..] && tail[0] != '-';
        forall i | 0 < i < |s|
          ensures s[i - 1] != '-' || s[i] != '-'
        {
          if i < |w| { assert s[i] in w; }
          if i == |w| { assert s[i - 1] in w; }
          if i > |w| + 1 { assert s[i - 1] == tail[i - |w| - 2] && s[i] == tail[i - |w| - 1]; }
        }
      } else {
        forall i | 0 < i < |w| ensures w[i] != '-' { assert w[i] in w; }
      }
    }
  }

  lemma {:induction false} TailShape(s: string, n: nat)
    requires SlugShape(s) && n < |s| && s[n] != '-'
    ensures SlugShape(s[n..])
  {
    var tail := s[n..];
    forall c | c in tail
      ensures SlugChar(c)
    {
      assert c in s;
    }
    forall i | 0 < i < |tail|
      ensures tail[i - 1] != '-' || tail[i] != '-'
    {
      assert tail[i] == s[n + i] && tail[i - 1] == s[n + i - 1];
    }
  }

  lemma {:induction false} WordsAfterDash(s: string)
    requires s != "" && IsWordChar(s[0]) && |FirstWord(s)| + 1 < |s| && IsWordChar(s[|FirstWord(s)| + 1])
    ensures var tail := s[|FirstWord(s)| + 1..]; Words(s) == [FirstWord(s)] + Words(tail) && Words(tail) != []
  {
    var rest := s[|FirstWord(s)|..];
    assert Words(s) == [FirstWord(s)] + Words(rest);
    assert rest[1..] == s[|FirstWord(s)| + 1..] && !IsWordChar(rest[0]);
  }

  lemma {:induction false} SplitAtDash(s: string, n: nat)
    requires n < |s| && s[n] == '-'
    ensures s == s[..n] + "-" + s[n + 1..]
  {
  }

  /** After the first word of a slug comes its end, or a dash and a word. */
  lemma {:induction false} AfterFirstWord(s: string)
    requires SlugShape(s) && s != ""
    ensures var n := |FirstWord(s)|;
            && n > 0 && (n < |s| ==> n + 1 < |s| && s[n] == '-' && IsWordChar(s[n + 1]))
  {
    var n := |FirstWord(s)|;
    assert s[0] in s;
    if n < |s| {
      assert s[n] in s && s[|s| - 1] != '-';
      assert s[n + 1] in s && (s[n] != '-' || s[n + 1] != '-');
    }
  }

  lemma {:induction false} ShapeIsJoin(s: string)
    requires SlugShape(s)
    ensures Join(Words(s)) == s
    decreases |s|
  {
    if s != "" {
      AfterFirstWord(s);
      var n := |FirstWord(s)|;
      if n < |s| {
        TailShape(s, n + 1);
        ShapeIsJoin(s[n + 1..]);
        WordsAfterDash(s);
        JoinCons(FirstWord(s), Words(s[n + 1..]));
        SplitAtDash(s, n);
      } else {
        OneWord(s);
      }
    }
  }

  lemma {:induction false} OneWord(s: string)
    requires s != "" && |FirstWord(s)| == |s|
    ensures Words(s) == [s]
  {
    assert FirstWord(s) == s && s[|s|..] == "" && IsWordChar(s[0]);
  }

  /** The fixed points of `slugify` are exactly the well-shaped slugs, and every result is one. */
  lemma {:induction false} SlugsAreFixedPoints(fold: char -> string, s: string)
    ensures Slugify(fold, s) == s <==> SlugShape(s)
    ensures SlugShape(Slugify(fold, s))
  {
    SlugifyJoinsWords(fold, s);
    WordsAreWords(ToLowerCase(fold, s));
    JoinShape(Words(ToLowerCase(fold, s)));
    if SlugShape(s) {
      LowerFixesSlugChars(fold, s);
      ShapeIsJoin(s);
    }
  }

  // ---- The search for a free slug ---------------------------------------------------------------

  /** The `n`-th candidate: the base itself, then base-1, base-2, ... */
  function Candidate(base: string, n: nat): string {
    if n == 0 then base else base + "-" + Decimal.Print(n)
  }

  lemma {:induction false} CandidatesDiffer(base: string, m: nat, n: nat)
    requires Candidate(base, m) == Candidate(base, n)
    ensures m == n
  {
    if m > 0 && n > 0 {
      var p, q := base + "-" + Decimal.Print(m), base + "-" + Decimal.Print(n);
      assert Decimal.Print(m) == p[|base| + 1..] && Decimal.Print(n) == q[|base| + 1..];
      Decimal.PrintInjective(m, n);
    }
  }

  /** Slugs by row id; the column is unique. */
  type Table = map<string, string>

  ghost predicate UniqueSlugs(rows: Table) {
    forall i, j :: i in rows && j in rows && rows[i] == rows[j] ==> i == j
  }

  /** Nobody but `currentId` owns the slug. */
  predicate Available(rows: Table, slug: string, currentId: Option<string>) {
    forall id | id in rows && rows[id] == slug :: Some(id) == currentId
  }

  /** The result is the first candidate that is free or already the row's own. */
  ghost predicate FirstAvailable(rows: Table, base: string, currentId: Option<string>, n: nat) {
    && Available(rows, Candidate(base, n), currentId)
    && forall k: nat :: k < n ==> !Available(rows, Candidate(base, k), currentId)
  }

  lemma {:induction false} SearchIsBounded(rows: Table, base: string, currentId: Option<string>, n: nat)
    requires forall k: nat :: k < n ==> !Available(rows, Candidate(base, k), currentId)
    ensures n <= |rows.Values|
  {
    var tried := seq(n, k requires 0 <= k < n => Candidate(base, k));
    forall i, j | 0 <= i < j < n ensures tried[i] != tried[j] {
      if tried[i] == tried[j] { CandidatesDiffer(base, i, j); }
    }
    forall x | x in tried ensures x in rows.Values {
      var k :| 0 <= k < n && tried[k] == x;
      assert !Available(rows, Candidate(base, k), currentId);
    }
    Pigeonhole(tried, rows.Values);
  }

  /** The candidates by name: the base, base-1, base-2, and so on. */
  lemma {:induction false} CandidatesAre(base: string, n: nat)
    ensures Candidate(base, 0) == base
    ensures n > 0 ==> Candidate(base, n) == base + "-" + Decimal.Print(n)
  {
  }

  /** The slug is the first candidate available, found after `n` others were looked up in vain. */
  ghost predicate FoundAfter(rows: Table, base: string, currentId: Option<string>, slug: string, n: nat) {
    slug == Candidate(base, n) && FirstAvailable(rows, base, currentId, n) && n <= |rows.Values|
  }

  /** Some other row owns the slug. */
  ghost predicate TakenByOther(rows: Table, slug: string, currentId: Option<string>) {
    exists id :: id in rows && rows[id] == slug && Some(id) != currentId
  }

  /** What is found: the base or a numbered base that no other row owns, all before it being owned by others. */
  lemma {:induction false} FoundMeans(rows: Table, base: string, currentId: Option<string>, slug: string, n: nat)
    requires FoundAfter(rows, base, currentId, slug, n)
    ensures slug == (if n == 0 then base else base + "-" + Decimal.Print(n))
    ensures !TakenByOther(rows, slug, currentId)
    ensures n > 0 ==> TakenByOther(rows, base, currentId)
    ensures forall k :: 0 < k < n ==> TakenByOther(rows, base + "-" + Decimal.Print(k), currentId)
  {
    assert n > 0 ==> !Available(rows, Candidate(base, 0), currentId);
    forall k | 0 < k < n
      ensures TakenByOther(rows, base + "-" + Decimal.Print(k), currentId)
    {
      assert !Available(rows, Candidate(base, k), currentId);
    }
  }

  /** A base that is free, or the row's own, is taken as it is. */
  lemma {:induction false} FreeBaseFound(rows: Table, base: string, currentId: Option<string>, slug: string, n: nat)
    requires FoundAfter(rows, base, currentId, slug, n) && !TakenByOther(rows, base, currentId)
    ensures slug == base
  {
    FoundMeans(rows, base, currentId, slug, n);
  }

  method EnsureUniqueSlug(rows: Table, baseSlug: string, currentId: Option<string>) returns (candidate: string)
    requires UniqueSlugs(rows)
    ensures exists n: nat :: FoundAfter(rows, baseSlug, currentId, candidate, n)
  {
    candidate := baseSlug;
    var counter := 1;
    while true
      invariant counter >= 1 && candidate == Candidate(baseSlug, counter - 1)
      invariant forall k: nat :: k < counter - 1 ==> !Available(rows, Candidate(baseSlug, k), currentId)
      decreases |rows.Values| + 1 - counter
    {
      SearchIsBounded(rows, baseSlug, currentId, counter - 1);
      var existing := FindBySlug(rows, candidate);
      if existing.None? || existing == currentId {
        assert FoundAfter(rows, baseSlug, currentId, candidate, counter - 1);
        return;
      }
      SearchIsBounded(rows, baseSlug, currentId, counter);
      candidate := baseSlug + "-" + Decimal.Print(counter);
      counter := counter + 1;
    }
  }

  method FindBySlug(rows: Table, slug: string) returns (owner: Option<string>)
    ensures owner.Some? ==> owner.value in rows && rows[owner.value] == slug
    ensures owner.None? <==> slug !in rows.Values
  {
    if slug in rows.Values {
      var id :| id in rows && rows[id] == slug;
      owner := Some(id);
    } else {
      owner := None;
    }
  }

  function BaseSlug(fold: char -> string, title: string, fallback: string): string {
    if Slugify(fold, title) != "" then Slugify(fold, title) else Slugify(fold, fallback)
  }

  /** The base is the slug of the title, unless nothing is left of the title. */
  lemma {:induction false} BaseSlugIs(fold: char -> string, title: string, fallback: string)
    ensures Slugify(fold, title) != "" ==> BaseSlug(fold, title, fallback) == Slugify(fold, title)
    ensures Slugify(fold, title) == "" ==> BaseSlug(fold, title, fallback) == Slugify(fold, fallback)
  {
  }

  /** The slug column of one table and the writes that go through the search. */
  class SlugColumn {
    var rows: Table

    constructor ()
      ensures rows == map[]
    {
      rows := map[];
    }

    /** A row is created under a slug made from its title, or from `fallback` when nothing is left of it. */
    method Create(fold: char -> string, id: string, title: string, fallback: string)
      requires UniqueSlugs(rows) && id !in rows
      modifies this
      ensures UniqueSlugs(rows)
      ensures exists slug, n: nat ::
                FoundAfter(old(rows), BaseSlug(fold, title, fallback), None, slug, n) && rows == old(rows)[id := slug]
      ensures Slugify(fold, title) != "" && Slugify(fold, title) !in old(rows).Values ==>
                rows == old(rows)[id := Slugify(fold, title)]
      ensures Slugify(fold, title) == "" && Slugify(fold, fallback) !in old(rows).Values ==>
                rows == old(rows)[id := Slugify(fold, fallback)]
    {
      var base := Slugify(fold, title);
      if base == "" { base := Slugify(fold, fallback); }
      var slug := EnsureUniqueSlug(rows, base, None);
      ghost var n: nat :| FoundAfter(rows, base, None, slug, n);
      assert FoundAfter(rows, BaseSlug(fold, title, fallback), None, slug, n);
      if base !in rows.Values { FreeBaseFound(rows, base, None, slug, n); }
      rows := rows[id := slug];
    }

    /** A listing's slug changes only to a nonempty slug that is free or its own. */
    method Update(fold: char -> string, id: string, wanted: string)
      requires UniqueSlugs(rows) && id in rows
      modifies this
      ensures UniqueSlugs(rows)
      ensures wanted == "" ==> rows == old(rows)
      ensures wanted != "" ==>
                exists slug, n: nat ::
                  && FoundAfter(old(rows), Slugify(fold, wanted), Some(id), slug, n)
                  && rows == if slug == "" then old(rows) else old(rows)[id := slug]
      ensures Slugify(fold, wanted) == old(rows)[id] ==> rows == old(rows)
    {
      if wanted != "" {
        var slug := EnsureUniqueSlug(rows, Slugify(fold, wanted), Some(id));
        ghost var n: nat :| FoundAfter(rows, Slugify(fold, wanted), Some(id), slug, n);
        if Slugify(fold, wanted) == rows[id] { FreeBaseFound(rows, Slugify(fold, wanted), Some(id), slug, n); }
        if slug != "" { rows := rows[id := slug]; }
      }
    }
  }
}
