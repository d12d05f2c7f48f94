/** The regular-expression matcher and the line filter of user/grep.c. */
module Grep {
  import opened Blocks

  // ---------------------------------------------------------------- what a pattern means

  /** One character, any run of one character, or the end of the text. '.' stands for every character. */
  datatype Item = One(c: char) | Star(c: char) | End

  predicate Fits(c: char, x: char) {
    c == '.' || c == x
  }

  /** The items of a pattern without its leading '^'. */
  function Items(re: string): seq<Item> {
    if re == "" then []
    else if |re| > 1 && re[1] == '*' then [Star(re[0])] + Items(re[2..])
    else if re == "$" then [End]
    else [One(re[0])] + Items(re[1..])
  }

  predicate PieceFits(item: Item, piece: string) {
    match item
    case One(c) => |piece| == 1 && Fits(c, piece[0])
    case Star(c) => forall j :: 0 <= j < |piece| ==> Fits(c, piece[j])
    case End => piece == ""
  }

  function Concat(pieces: seq<string>): string {
    if pieces == [] then "" else pieces[0] + Concat(pieces[1..])
  }

  /** w can be cut into one piece for each item. */
  ghost predicate Word(items: seq<Item>, w: string) {
    exists pieces: seq<string> :: Cut(items, w, pieces)
  }

  predicate Cut(items: seq<Item>, w: string, pieces: seq<string>) {
    |pieces| == |items| && Concat(pieces) == w && forall i :: 0 <= i < |items| ==> PieceFits(items[i], pieces[i])
  }

  predicate Anchored(items: seq<Item>) {
    items != [] && items[|items| - 1] == End
  }

  /** Some prefix of the text, the whole of it if the pattern ends in '$', is a word of the pattern. */
  ghost predicate MatchesHere(re: string, text: string) {
    exists n :: 0 <= n <= |text| && WordAt(re, text, n)
  }

  ghost predicate WordAt(re: string, text: string, n: nat)
    requires n <= |text|
  {
    Word(Items(re), text[..n]) && (Anchored(Items(re)) ==> n == |text|)
  }

  /** The meaning of a pattern: '^' pins the match to the start of the text. */
  ghost predicate Matches(re: string, text: string) {
    if re != "" && re[0] == '^' then MatchesHere(re[1..], text)
    else exists k :: 0 <= k <= |text| && MatchesHere(re, text[k..])
  }

  // ---------------------------------------------------------------- one item at a time

  lemma WordEmpty(w: string)
    ensures Word([], w) <==> w == ""
  {
    assert Cut([], "", []);
  }

  /** A word starts with a piece for the first item. */
  lemma WordFirst(items: seq<Item>, w: string)
    requires items != []
    ensures Word(items, w) <==> exists k :: 0 <= k <= |w| && PieceFits(items[0], w[..k]) && Word(items[1..], w[k..])
  {
    if Word(items, w) {
      var pieces :| Cut(items, w, pieces);
      var k := |pieces[0]|;
      assert w[..k] == pieces[0] && w[k..] == Concat(pieces[1..]);
      assert Cut(items[1..], w[k..], pieces[1..]);
    }
    if k :| 0 <= k <= |w| && PieceFits(items[0], w[..k]) && Word(items[1..], w[k..]) {
      var pieces :| Cut(items[1..], w[k..], pieces);
      assert w == w[..k] + w[k..];
      assert Cut(items, w, [w[..k]] + pieces);
    }
  }

  /** Spending k characters on the first item leaves the rest of the word to the other items. */
  lemma WordAtFirst(re: string, rest: string, text: string, k: nat, n: nat)
    requires Items(re) != [] && Items(rest) == Items(re)[1..] && Items(re)[0] != End
    requires k <= n <= |text| && PieceFits(Items(re)[0], text[..k])
    ensures WordAt(rest, text[k..], n - k) ==> WordAt(re, text, n)
  {
    hide Word, PieceFits, Items;
    assert text[..n][..k] == text[..k] && text[..n][k..] == text[k..][..n - k];
    WordFirst(Items(re), text[..n]);
  }

  lemma WordAtSplit(re: string, rest: string, text: string, n: nat) returns (k: nat)
    requires Items(re) != [] && Items(rest) == Items(re)[1..] && n <= |text| && WordAt(re, text, n)
    ensures k <= n && PieceFits(Items(re)[0], text[..k]) && WordAt(rest, text[k..], n - k)
  {
    hide Word, PieceFits, Items;
    WordFirst(Items(re), text[..n]);
    k :| 0 <= k <= n && PieceFits(Items(re)[0], text[..n][..k]) && Word(Items(re)[1..], text[..n][k..]);
    assert text[..n][..k] == text[..k] && text[..n][k..] == text[k..][..n - k];
  }

  /** A pattern whose first item is not '$' matches here by spending k characters on that item. */
  lemma HereFirst(re: string, rest: string, text: string)
    requires Items(re) != [] && Items(rest) == Items(re)[1..] && Items(re)[0] != End
    ensures MatchesHere(re, text) <==>
              exists k :: 0 <= k <= |text| && PieceFits(Items(re)[0], text[..k]) && MatchesHere(rest, text[k..])
  {
    hide PieceFits, Items, WordAt;
    if MatchesHere(re, text) {
      var n :| 0 <= n <= |text| && WordAt(re, text, n);
      var k := WordAtSplit(re, rest, text, n);
      assert MatchesHere(rest, text[k..]);
    }
    if k :| 0 <= k <= |text| && PieceFits(Items(re)[0], text[..k]) && MatchesHere(rest, text[k..]) {
      var m :| 0 <= m <= |text| - k && WordAt(rest, text[k..], m);
      WordAtFirst(re, rest, text, k, k + m);
    }
  }

  lemma HereEmpty(text: string)
    ensures MatchesHere("", text)
  {
    WordEmpty("");
    assert WordAt("", text, 0);
  }

  lemma HereEnd(text: string)
    ensures MatchesHere("$", text) <==> text == ""
  {
    assert Items("$") == [End] && [End][1..] == [];
    if n :| 0 <= n <= |text| && WordAt("$", text, n) {
      assert text[..n] == text;
      WordFirst([End], text);
      var k :| 0 <= k <= |text| && PieceFits(End, text[..k]) && Word([], text[k..]);
      WordEmpty(text[k..]);
    }
    if text == "" {
      assert Cut([End], "", [""]);
      assert WordAt("$", text, 0);
    }
  }

  lemma HereOne(re: string, text: string)
    requires re != "" && !(|re| > 1 && re[1] == '*') && re != "$"
    ensures MatchesHere(re, text) <==> text != "" && Fits(re[0], text[0]) && MatchesHere(re[1..], text[1..])
  {
    assert Items(re)[1..] == Items(re[1..]);
    HereFirst(re, re[1..], text);
    if text != "" && Fits(re[0], text[0]) && MatchesHere(re[1..], text[1..]) {
      assert PieceFits(Items(re)[0], text[..1]);
    }
  }

  lemma HereStar(re: string, text: string)
    requires |re| > 1 && re[1] == '*'
    ensures MatchesHere(re, text) <==> StarHere(re[0], re[2..], text)
  {
    assert Items(re)[1..] == Items(re[2..]);
    HereFirst(re, re[2..], text);
    if MatchesHere(re, text) {
      var k :| 0 <= k <= |text| && PieceFits(Star(re[0]), text[..k]) && MatchesHere(re[2..], text[k..]);
      assert forall j :: 0 <= j < k ==> text[..k][j] == text[j];
      assert StarAt(re[0], re[2..], text, k);
    }
    if StarHere(re[0], re[2..], text) {
      var k :| 0 <= k <= |text| && StarAt(re[0], re[2..], text, k);
      assert PieceFits(Star(re[0]), text[..k]);
    }
  }

  ghost predicate StarAt(c: char, re: string, text: string, k: nat)
    requires k <= |text|
  {
    (forall j :: 0 <= j < k ==> Fits(c, text[j])) && MatchesHere(re, text[k..])
  }

  ghost predicate StarHere(c: char, re: string, text: string) {
    exists k :: 0 <= k <= |text| && StarAt(c, re, text, k)
  }

  // ---------------------------------------------------------------- the matcher

  /** matchhere. */
  method MatchHere(re: string, text: string) returns (b: bool)
    ensures b <==> MatchesHere(re, text)
    decreases |re|, 0
  {
    if re == "" {
      HereEmpty(text);
      return true;
    }
    if |re| > 1 && re[1] == '*' {
      HereStar(re, text);
      b := MatchStar(re[0], re[2..], text);
      return;
    }
    if re[0] == '$' && |re| == 1 {
      HereEnd(text);
      return text == "";
    }
    HereOne(re, text);
    if text != "" && (re[0] == '.' || re[0] == text[0]) {
      b := MatchHere(re[1..], text[1..]);
      return;
    }
    return false;
  }

  /** matchstar. */
  method MatchStar(c: char, re: string, text: string) returns (b: bool)
    ensures b <==> StarHere(c, re, text)
    decreases |re|, 1
  {
    var k := 0;
    while true
      invariant k <= |text| && (forall j :: 0 <= j < k ==> Fits(c, text[j]))
      invariant forall j :: 0 <= j < k ==> !StarAt(c, re, text, j)
      decreases |text| - k
    {
      b := MatchHere(re, text[k..]);
      if b {
        assert StarAt(c, re, text, k);
        return;
      }
      if !(k < |text| && (text[k] == c || c == '.')) {
        return;
      }
      k := k + 1;
    }
  }

  /** match. */
  method Match(re: string, text: string) returns (b: bool)
    ensures b <==> Matches(re, text)
  {
    if re != "" && re[0] == '^' {
      b := MatchHere(re[1..], text);
      return;
    }
    var k := 0;
    while true
      invariant k <= |text| && forall j :: 0 <= j < k ==> !MatchesHere(re, text[j..])
      decreases |text| - k
    {
      b := MatchHere(re, text[k..]);
      if b || k == |text| {
        return;
      }
      k := k + 1;
    }
  }

  // ---------------------------------------------------------------- the line filter

  const BUFFER: nat := 1024

  /** The complete lines of s that match, each with its newline. */
  ghost function Selected(re: string, s: string): string
    decreases |s|
  {
    var i := IndexOf(s, '\n');
    if i == |s| then "" else (if Matches(re, s[..i]) then s[..i + 1] else "") + Selected(re, s[i + 1..])
  }

  /** A line grep can take out of its buffer: with its newline it fits, and strchr gets to the newline. */
  predicate Readable(line: string) {
    |line| < BUFFER - 1 && '\0' !in line
  }

  /** How much of s grep gets through: it stops before the first line it cannot take out of its buffer, and
    * before a last line without newline. */
  function Handled(s: string): (n: nat)
    ensures n <= |s|
    decreases |s|
  {
    var i := IndexOf(s, '\n');
    if i == |s| || !Readable(s[..i]) then 0 else i + 1 + Handled(s[i + 1..])
  }

  /** Every complete line is readable. */
  predicate LinesFit(s: string)
    decreases |s|
  {
    var i := IndexOf(s, '\n');
    i < |s| ==> Readable(s[..i]) && LinesFit(s[i + 1..])
  }

  /** Nothing but a last line without newline is left behind exactly when every complete line is readable. */
  lemma {:induction false} HandledAllIff(s: string)
    ensures '\n' !in s[Handled(s)..] <==> LinesFit(s)
    ensures LinesFit(s) && s != "" && s[|s| - 1] == '\n' ==> Handled(s) == |s|
    decreases |s|
  {
    var i := IndexOf(s, '\n');
    if i < |s| && Readable(s[..i]) {
      HandledAllIff(s[i + 1..]);
      assert s[i + 1..][Handled(s[i + 1..])..] == s[Handled(s)..];
    }
  }

  lemma {:induction false} IndexOfIs(s: string, i: nat)
    requires i < |s| && s[i] == '\n' && forall j :: 0 <= j < i ==> s[j] != '\n'
    ensures IndexOf(s, '\n') == i
  {
  }

  /** The recursions above, on a text cut after its first line. */
  lemma FirstLine(re: string, line: string, rest: string)
    requires '\n' !in line
    ensures var s := line + "\n" + rest;
            && Selected(re, s) == (if Matches(re, line) then line + "\n" else "") + Selected(re, rest)
            && (Readable(line) ==> Handled(s) == |line| + 1 + Handled(rest))
            && (LinesFit(s) <==> Readable(line) && LinesFit(rest))
  {
    hide IndexOf, Matches;
    var s := line + "\n" + rest;
    IndexOfIs(s, |line|);
    assert s[..|line|] == line && s[..|line| + 1] == line + "\n" && s[|line| + 1..] == rest;
  }

  lemma NoLine(re: string, s: string)
    requires '\n' !in s
    ensures Selected(re, s) == "" && Handled(s) == 0 && LinesFit(s)
  {
  }

  /** A line too long for the buffer, or with a NUL in it, hides itself and all that follows: every pattern
    * that is empty selects every line, and none of these is reached. */
  lemma StopsAtUnreadable(line: string, rest: string)
    requires '\n' !in line && !Readable(line)
    ensures var s := line + "\n" + rest;
            Handled(s) == 0 && Selected("", s) == line + "\n" + Selected("", rest) && !LinesFit(s)
  {
    hide Matches, Selected, LinesFit;
    var s := line + "\n" + rest;
    FirstLine("", line, rest);
    IndexOfIs(s, |line|);
    assert s[..|line|] == line;
    EmptyMatches(line);
  }

  lemma EmptyMatches(line: string)
    ensures Matches("", line)
  {
    WordEmpty("");
    assert line[0..] == line && line[..0] == "" && WordAt("", line, 0);
    assert MatchesHere("", line[0..]);
  }

  /** The lemma above at its smallest. */
  lemma LostLine()
    ensures Handled("a\0\nb\n") == 0 && Selected("", "a\0\nb\n") != ""
  {
    hide Handled, Selected, LinesFit;
    assert "a\0"[1] == '\0';
    assert "a\0\nb\n" == "a\0" + "\n" + "b\n";
    StopsAtUnreadable("a\0", "b\n");
  }

  lemma CutLine(s: string) returns (line: string, rest: string)
    requires '\n' in s
    ensures '\n' !in line && s == line + "\n" + rest && |rest| < |s|
  {
    var i := IndexOf(s, '\n');
    line, rest := s[..i], s[i + 1..];
  }

  /** When every line fits, stopping there loses nothing. */
  lemma {:induction false} SelectedHandled(re: string, s: string)
    requires LinesFit(s)
    ensures Selected(re, s[..Handled(s)]) == Selected(re, s)
    decreases |s|
  {
    hide Selected, Handled, LinesFit, Matches;
    if '\n' in s {
      var line, rest := CutLine(s);
      FirstLine(re, line, rest);
      SelectedHandled(re, rest);
      FirstLine(re, line, rest[..Handled(rest)]);
      assert s[..Handled(s)] == line + "\n" + rest[..Handled(rest)];
    } else {
      NoLine(re, s);
      NoLine(re, "");
      assert s[..0] == "";
    }
  }

  predicate Complete(s: string) {
    s == "" || s[|s| - 1] == '\n'
  }

  lemma {:induction false} SelectedAppend(re: string, a: string, b: string)
    requires Complete(a)
    ensures Selected(re, a + b) == Selected(re, a) + Selected(re, b)
    decreases |a|
  {
    hide Selected, Handled, LinesFit, Matches;
    if a == "" {
      assert a + b == b;
      NoLine(re, a);
    } else {
      assert a[|a| - 1] in a;
      var line, rest := CutLine(a);
      FirstLine(re, line, rest);
      SelectedAppend(re, rest, b);
      FirstLine(re, line, rest + b);
      assert a + b == line + "\n" + (rest + b);
    }
  }

  /** One more line: the text done so far is s[..d], and the next newline is at d + i. */
  lemma OneLine(re: string, s: string, d: nat, i: nat)
    requires d + i < |s| && Complete(s[..d]) && s[d + i] == '\n'
    requires forall j :: d <= j < d + i ==> s[j] != '\n' && s[j] != '\0'
    ensures Complete(s[..d + i + 1])
    ensures Selected(re, s[..d + i + 1])
         == Selected(re, s[..d]) + if Matches(re, s[d..d + i]) then s[d..d + i + 1] else ""
    ensures Readable(s[d..d + i]) ==> Handled(s[d..]) == i + 1 + Handled(s[d + i + 1..])
  {
    hide Matches, Selected, Handled, LinesFit;
    var line := s[d..d + i];
    assert s[d..d + i + 1] == line + "\n" == line + "\n" + "";
    assert s[..d + i + 1] == s[..d] + (line + "\n" + "");
    SelectedAppend(re, s[..d], line + "\n" + "");
    FirstLine(re, line, "");
    NoLine(re, "");
    assert s[d..] == line + "\n" + s[d + i + 1..];
    FirstLine(re, line, s[d + i + 1..]);
  }

  /** What grep has done once d characters of the input are behind it. */
  ghost predicate Progress(re: string, input: string, d: nat, out: string) {
    && d <= |input| && Complete(input[..d])
    && out == Selected(re, input[..d])
    && Handled(input) == d + Handled(input[d..])
  }

  lemma Progressed(re: string, input: string, d: nat, i: nat, out: string, out': string)
    requires Progress(re, input, d, out) && d + i < |input| && i < BUFFER - 1
    requires input[d + i] == '\n' && forall j :: d <= j < d + i ==> input[j] != '\n' && input[j] != '\0'
    requires out' == out + if Matches(re, input[d..d + i]) then input[d..d + i + 1] else ""
    ensures Progress(re, input, d + i + 1, out')
  {
    hide Selected, Handled, Matches, Complete;
    OneLine(re, input, d, i);
  }

  /** read: some of the characters left, none only if there is no room or no input. */
  method Read(buf: array<char>, m: nat, input: string, pos: nat) returns (n: nat)
    requires buf.Length == BUFFER && m < BUFFER && pos <= |input|
    modifies buf
    ensures n <= BUFFER - m - 1 && n <= |input| - pos && (n == 0 ==> m == BUFFER - 1 || pos == |input|)
    ensures buf[..m] == old(buf[..m]) && buf[m..m + n] == input[pos..pos + n]
  {
    var room, left := BUFFER - m - 1, |input| - pos;
    n :| 0 <= n <= room && n <= left && (n == 0 ==> room == 0 || left == 0) by {
      assert (if room < left then room else left) >= 0;
    }
    forall j | 0 <= j < n {
      buf[m + j] := input[pos + j];
    }
    SliceCopied(buf[..], m, input, pos, n);
    assert buf[..][m..m + n] == buf[m..m + n];
  }

  lemma SliceCopied(b: string, m: nat, s: string, pos: nat, n: nat)
    requires m + n <= |b| && pos + n <= |s| && forall k :: m <= k < m + n ==> b[k] == s[pos + (k - m)]
    ensures b[m..m + n] == s[pos..pos + n]
  {
    var copy, original := b[m..m + n], s[pos..pos + n];
    forall j | 0 <= j < n
      ensures copy[j] == original[j]
    {
      assert b[m + j] == s[pos + (m + j - m)];
    }
  }

  /** strchr finds no newline in this text: there is none before its first NUL. */
  predicate Held(s: string) {
    var i := IndexOf(s, '\n');
    i == |s| || '\0' in s[..i]
  }

  lemma HeldFrom(s: string, z: nat)
    requires z <= |s| && (z < |s| ==> s[z] == '\0') && forall j :: 0 <= j < z ==> s[j] != '\n'
    ensures Held(s)
  {
    var i := IndexOf(s, '\n');
    if i < |s| {
      assert z < i && s[..i][z] == '\0';
    }
  }

  /** strchr(p, '\n') on the m characters in the buffer; m when it returns null. */
  method FindNewline(buf: array<char>, p: nat, m: nat) returns (q: nat)
    requires p <= m < buf.Length && buf[m] == '\0'
    ensures p <= q <= m && (q < m ==> buf[q] == '\n' && forall j :: p <= j < q ==> buf[j] != '\n' && buf[j] != '\0')
    ensures q == m ==> Held(buf[p..m])
  {
    q := p;
    while buf[q] != '\0'
      invariant p <= q <= m && forall j :: p <= j < q ==> buf[j] != '\n' && buf[j] != '\0'
      decreases m - q
    {
      if buf[q] == '\n' {
        return;
      }
      q := q + 1;
    }
    HeldFrom(buf[p..m], q - p);
    q := m;
  }

  /** From place p to place m the buffer holds the input from d + p on. */
  ghost predicate Carries(b: string, p: nat, m: nat, input: string, d: nat) {
    p <= m <= |b| && d + m <= |input| && forall j :: p <= j < m ==> b[j] == input[d + j]
  }

  lemma CarriesAll(b: string, m: nat, input: string, d: nat)
    requires m <= |b| && d + m <= |input| && b[..m] == input[d..d + m]
    ensures Carries(b, 0, m, input, d)
  {
    forall j | 0 <= j < m
      ensures b[j] == input[d + j]
    {
      assert b[..m][j] == input[d..d + m][j];
    }
  }

  lemma CarriesText(b: string, p: nat, m: nat, input: string, d: nat)
    requires Carries(b, p, m, input, d)
    ensures b[p..m] == input[d + p..d + m]
  {
  }

  lemma CarriesSlice(b: string, p: nat, m: nat, input: string, d: nat, q: nat)
    requires Carries(b, p, m, input, d) && p <= q < m
    ensures b[p..q] == input[d + p..d + q] && b[p..q + 1] == input[d + p..d + q + 1]
    ensures b[q] == input[d + q] && forall j :: d + p <= j < d + q ==> input[j] == b[j - d]
  {
    forall j | d + p <= j < d + q
      ensures input[j] == b[j - d]
    {
      var k := j - d;
      assert b[k] == input[d + k];
    }
  }

  lemma CarriesOn(b: string, b': string, p: nat, q: nat, m: nat, input: string, d: nat)
    requires Carries(b, p, m, input, d) && p <= q < m && |b'| == |b| && forall j :: q < j < |b| ==> b'[j] == b[j]
    ensures Carries(b', q + 1, m, input, d)
  {
  }

  /** The inner loop of grep: the lines in the buffer, whose first character is input[d]. */
  method ScanLines(re: string, buf: array<char>, m: nat, ghost input: string, ghost d: nat, out0: string)
    returns (p: nat, out: string)
    requires buf.Length == BUFFER && m < BUFFER && buf[m] == '\0' && d + m <= |input|
    requires buf[..m] == input[d..d + m] && Progress(re, input, d, out0)
    modifies buf
    ensures p <= m && buf[p..m] == input[d + p..d + m] && Progress(re, input, d + p, out) && Held(buf[p..m])
  {
    hide Progress, Matches, Carries, Held;
    p, out := 0, out0;
    CarriesAll(buf[..], m, input, d);
    while true
      invariant 0 <= p <= m && buf[m] == '\0' && Carries(buf[..], p, m, input, d) && Progress(re, input, d + p, out)
      decreases m - p
    {
      CarriesText(buf[..], p, m, input, d);
      var q, b := ScanLine(re, buf, p, m, input, d);
      if q == m {
        return;
      }
      ghost var was := out;
      if b {
        out := out + buf[p..q + 1];
      }
      Progressed(re, input, d + p, q - p, was, out);
      p := q + 1;
    }
  }

  /** One turn: the next line is matched with its newline overwritten, which only a match restores. */
  method ScanLine(re: string, buf: array<char>, p: nat, m: nat, ghost input: string, ghost d: nat)
    returns (q: nat, b: bool)
    requires buf.Length == BUFFER && p <= m < BUFFER && buf[m] == '\0' && d + m <= |input|
    requires Carries(buf[..], p, m, input, d)
    modifies buf
    ensures p <= q <= m && buf[m] == '\0'
    ensures q == m ==> buf[..] == old(buf[..]) && Held(buf[p..m])
    ensures q < m ==> Carries(buf[..], q + 1, m, input, d)
    ensures q < m ==>
              input[d + q] == '\n' && forall j :: d + p <= j < d + q ==> input[j] != '\n' && input[j] != '\0'
    ensures q < m ==> (b <==> Matches(re, input[d + p..d + q])) && (b ==> buf[p..q + 1] == input[d + p..d + q + 1])
  {
    hide Matches, Carries, Held;
    q := FindNewline(buf, p, m);
    b := false;
    if q == m {
      return;
    }
    CarriesSlice(buf[..], p, m, input, d, q);
    buf[q] := '\0';
    b := Match(re, buf[p..q]);
    if b {
      buf[q] := '\n';
      assert buf[..] == old(buf[..]);
    }
    CarriesOn(old(buf[..]), buf[..], p, q, m, input, d);
  }

  /** memmove of the unfinished line to the front of the buffer. */
  method Shift(buf: array<char>, p: nat, m: nat)
    requires p <= m <= buf.Length
    modifies buf
    ensures buf[..m - p] == old(buf[p..m])
  {
    forall j | 0 <= j < m - p {
      buf[j] := buf[p + j];
    }
  }

  /** What the outer loop keeps: the buffer holds the input up to input[pos] from a line on that is not
    * finished, or that strchr cannot get through. */
  ghost predicate Buffered(re: string, input: string, b: string, m: nat, pos: nat, out: string) {
    && |b| == BUFFER && m < BUFFER && m <= pos <= |input|
    && b[..m] == input[pos - m..pos] && Held(b[..m])
    && Progress(re, input, pos - m, out)
  }

  /** One turn of grep's outer loop after n characters were read behind the first m. */
  method Turn(re: string, buf: array<char>, m0: nat, n: nat, ghost input: string, pos: nat, out0: string)
    returns (m: nat, out: string)
    requires buf.Length == BUFFER && m0 + n < BUFFER && m0 <= pos && pos + n <= |input|
    requires buf[..m0 + n] == input[pos - m0..pos + n] && Progress(re, input, pos - m0, out0)
    modifies buf
    ensures Buffered(re, input, buf[..], m, pos + n, out)
  {
    hide Progress, Matches, Held;
    m := m0 + n;
    ghost var d := pos - m0;
    buf[m] := '\0';
    var p;
    p, out := ScanLines(re, buf, m, input, d, out0);
    Shift(buf, p, m);
    m := m - p;
    assert buf[..][..m] == buf[..m];
  }

  /** grep on one file: however the reads are split, it prints exactly the matching lines of the
    * part it handles, which is all of them exactly when every complete line fits the buffer and has
    * no NUL in it. */
  method Filter(re: string, input: string, buf: array<char>) returns (out: string)
    requires buf.Length == BUFFER
    modifies buf
    ensures out == Selected(re, input[..Handled(input)])
    ensures LinesFit(input) ==> out == Selected(re, input)
  {
    hide Progress, Matches, Selected, Handled, LinesFit, Held;
    HeldFrom("", 0);
    var m, pos := 0, 0;
    out := "";
    ProgressStart(re, input);
    while true
      invariant 0 <= m && 0 <= pos && Buffered(re, input, buf[..], m, pos, out)
      decreases |input| - pos
    {
      ghost var was := buf[..];
      var n := Read(buf, m, input, pos);
      if n == 0 {
        ProgressEnd(re, input, pos - m, out, was[..m]);
        return;
      }
      JoinText(buf[..], m, n, input, pos);
      m, out := Turn(re, buf, m, n, input, pos, out);
      pos := pos + n;
    }
  }

  lemma ProgressStart(re: string, input: string)
    ensures Progress(re, input, 0, "")
  {
    NoLine(re, "");
    assert input[..0] == "" && input[0..] == input;
  }

  lemma JoinText(b: string, m: nat, n: nat, input: string, pos: nat)
    requires m + n <= |b| && m <= pos && pos + n <= |input|
    requires b[..m] == input[pos - m..pos] && b[m..m + n] == input[pos..pos + n]
    ensures b[..m + n] == input[pos - m..pos + n]
  {
    assert b[..m + n] == b[..m] + b[m..m + n];
  }

  /** A text that starts with something strchr gets nothing out of, as much as the buffer or the input holds. */
  lemma NothingMore(s: string, rest: string)
    requires rest <= s && Held(rest) && (|rest| == BUFFER - 1 || |rest| == |s|)
    ensures Handled(s) == 0
  {
    var i := IndexOf(s, '\n');
    if i < |rest| {
      IndexOfIs(rest, i);
      hide IndexOf;
      assert rest[..i] == s[..i];
    }
  }

  lemma ProgressEnd(re: string, input: string, d: nat, out: string, rest: string)
    requires Progress(re, input, d, out) && d + |rest| <= |input| && rest == input[d..d + |rest|] && Held(rest)
    requires |rest| == BUFFER - 1 || d + |rest| == |input|
    ensures out == Selected(re, input[..Handled(input)])
    ensures LinesFit(input) ==> out == Selected(re, input)
  {
    hide Selected, Matches, LinesFit, Handled, Held, Complete;
    NothingMore(input[d..], rest);
    if LinesFit(input) {
      SelectedHandled(re, input);
    }
  }
}
