/** The regular expressions of xv6/user/grep.c, and its loop over a buffer of lines. A C string is the
    sequence of its characters before the terminating NUL. */
module Grep {
  // What a pattern means.

  /** One character, or any number of them; '.' stands for every character. */
  datatype Item = One(c: char) | Many(c: char)

  /** What a pattern without its leading '^' says: a sequence of items, and whether '$' ends it. */
  datatype Pattern = Pattern(items: seq<Item>, atEnd: bool)

  function Parse(re: string): (pat: Pattern)
    decreases |re|
  {
    if re == "" then Pattern([], false)
    else if |re| >= 2 && re[1] == '*' then
      var rest := Parse(re[2..]); Pattern([Many(re[0])] + rest.items, rest.atEnd)
    else if re == "$" then Pattern([], true)
    else
      var rest := Parse(re[1..]); Pattern([One(re[0])] + rest.items, rest.atEnd)
  }

  predicate Is(c: char, x: char) {
    c == '.' || c == x
  }

  predicate PieceOk(item: Item, w: string) {
    match item
    case One(c) => |w| == 1 && Is(c, w[0])
    case Many(c) => forall k :: 0 <= k < |w| ==> Is(c, w[k])
  }

  function Concat(parts: seq<string>): (w: string) {
    if parts == [] then "" else parts[0] + Concat(parts[1..])
  }

  /** w is made of parts, one for each item. */
  ghost predicate Splits(items: seq<Item>, parts: seq<string>, w: string) {
    |parts| == |items| && Concat(parts) == w && forall k :: 0 <= k < |items| ==> PieceOk(items[k], parts[k])
  }

  ghost predicate Denotes(items: seq<Item>, w: string) {
    exists parts :: Splits(items, parts, w)
  }

  /** The pattern describes some beginning of text, all of it if '$' says so. */
  ghost predicate Here(pat: Pattern, text: string) {
    exists j :: 0 <= j <= |text| && HereTo(pat, text, j)
  }

  ghost predicate HereTo(pat: Pattern, text: string, j: nat) {
    j <= |text| && Denotes(pat.items, text[..j]) && (pat.atEnd ==> j == |text|)
  }

  /** The pattern describes some part of text, which '^' ties to the start. */
  ghost predicate Means(re: string, text: string) {
    if re != "" && re[0] == '^' then Here(Parse(re[1..]), text)
    else exists i :: 0 <= i <= |text| && Here(Parse(re), text[i..])
  }

  lemma DenotesNone(w: string)
    ensures Denotes([], w) <==> w == ""
  {
    if w == "" {
      assert Splits([], [], w);
    }
  }

  lemma DenotesFirst(item: Item, rest: seq<Item>, w: string, a: nat)
    requires a <= |w| && PieceOk(item, w[..a]) && Denotes(rest, w[a..])
    ensures Denotes([item] + rest, w)
  {
    var parts :| Splits(rest, parts, w[a..]);
    var items, parts' := [item] + rest, [w[..a]] + parts;
    assert parts'[1..] == parts;
    assert Concat(parts') == w[..a] + w[a..] == w;
    forall k | 0 <= k < |items|
      ensures PieceOk(items[k], parts'[k])
    {
      assert k > 0 ==> PieceOk(rest[k - 1], parts[k - 1]);
    }
    assert Splits(items, parts', w);
  }

  lemma DenotesSplit(item: Item, rest: seq<Item>, w: string) returns (a: nat)
    requires Denotes([item] + rest, w)
    ensures a <= |w| && PieceOk(item, w[..a]) && Denotes(rest, w[a..])
  {
    var items := [item] + rest;
    var parts :| Splits(items, parts, w);
    a := |parts[0]|;
    assert w == parts[0] + Concat(parts[1..]);
    assert w[..a] == parts[0] && w[a..] == Concat(parts[1..]);
    assert PieceOk(items[0], parts[0]);
    forall k | 0 <= k < |rest|
      ensures PieceOk(rest[k], parts[1..][k])
    {
      assert PieceOk(items[k + 1], parts[k + 1]);
    }
    assert Splits(rest, parts[1..], w[a..]);
  }

  /** A pattern with a first item describes a beginning of text just when that item describes a beginning
      of it and the rest one of what follows. */
  lemma HereFirst(item: Item, rest: Pattern, text: string, a: nat)
    requires a <= |text| && PieceOk(item, text[..a]) && Here(rest, text[a..])
    ensures Here(Pattern([item] + rest.items, rest.atEnd), text)
  {
    var j :| 0 <= j <= |text[a..]| && HereTo(rest, text[a..], j);
    var w := text[..a + j];
    assert w[..a] == text[..a] && w[a..] == text[a..][..j];
    DenotesFirst(item, rest.items, w, a);
    assert HereTo(Pattern([item] + rest.items, rest.atEnd), text, a + j);
  }

  lemma HereSplit(item: Item, rest: Pattern, text: string) returns (a: nat)
    requires Here(Pattern([item] + rest.items, rest.atEnd), text)
    ensures a <= |text| && PieceOk(item, text[..a]) && Here(rest, text[a..])
  {
    var pat := Pattern([item] + rest.items, rest.atEnd);
    var j :| 0 <= j <= |text| && HereTo(pat, text, j);
    a := DenotesSplit(item, rest.items, text[..j]);
    assert text[..j][..a] == text[..a] && text[..j][a..] == text[a..][..j - a];
    assert HereTo(rest, text[a..], j - a);
  }

  lemma HereNone(atEnd: bool, text: string)
    ensures Here(Pattern([], atEnd), text) <==> !atEnd || text == ""
  {
    DenotesNone(text[..0]);
    assert !atEnd ==> HereTo(Pattern([], atEnd), text, 0);
    assert text == "" ==> HereTo(Pattern([], atEnd), text, 0);
    if Here(Pattern([], atEnd), text) {
      var j :| 0 <= j <= |text| && HereTo(Pattern([], atEnd), text, j);
      DenotesNone(text[..j]);
    }
  }

  lemma HereOne(c: char, rest: Pattern, text: string)
    ensures Here(Pattern([One(c)] + rest.items, rest.atEnd), text) <==>
      text != "" && Is(c, text[0]) && Here(rest, text[1..])
  {
    if Here(Pattern([One(c)] + rest.items, rest.atEnd), text) {
      var a := HereSplit(One(c), rest, text);
    }
    if text != "" && Is(c, text[0]) && Here(rest, text[1..]) {
      HereFirst(One(c), rest, text, 1);
    }
  }

  // The matcher.

  /** matchhere: does the pattern describe a beginning of text? */
  method MatchHere(re: string, text: string) returns (r: bool)
    ensures r <==> Here(Parse(re), text)
    decreases |re|, 0
  {
    if re == "" {
      HereNone(false, text);
      return true;
    }
    if |re| >= 2 && re[1] == '*' {
      r := MatchStar(re[0], re[2..], text);
      return;
    }
    if re == "$" {
      HereNone(true, text);
      return text == "";
    }
    HereOne(re[0], Parse(re[1..]), text);
    if text != "" && (re[0] == '.' || re[0] == text[0]) {
      r := MatchHere(re[1..], text[1..]);
      return;
    }
    return false;
  }

  /** matchstar: does c* followed by the pattern describe one? */
  method MatchStar(c: char, re: string, text: string) returns (r: bool)
    ensures r <==> Here(Pattern([Many(c)] + Parse(re).items, Parse(re).atEnd), text)
    decreases |re|, 1
  {
    var a := 0;
    ghost var rest := Parse(re);
    assert text[0..] == text;
    while true
      invariant 0 <= a <= |text| && PieceOk(Many(c), text[..a])
      invariant forall b :: 0 <= b < a ==> !Here(rest, text[b..])
      decreases |text| - a
    {
      r := MatchHere(re, text[a..]);
      if r {
        HereFirst(Many(c), rest, text, a);
        return;
      }
      if a == |text| || !(text[a] == c || c == '.') {
        NoStar(c, rest, text, a);
        return;
      }
      a := a + 1;
    }
  }

  /** If no part up to a works and text[a] is no c, none does. */
  lemma NoStar(c: char, rest: Pattern, text: string, a: nat)
    requires a <= |text| && (a < |text| ==> !Is(c, text[a])) && forall b :: 0 <= b <= a ==> !Here(rest, text[b..])
    ensures !Here(Pattern([Many(c)] + rest.items, rest.atEnd), text)
  {
    forall b | a < b <= |text|
      ensures !PieceOk(Many(c), text[..b])
    {
      assert text[..b][a] == text[a];
    }
    if Here(Pattern([Many(c)] + rest.items, rest.atEnd), text) {
      var b := HereSplit(Many(c), rest, text);
    }
  }

  /** match: 1 exactly when the pattern describes some part of text. */
  method Match(re: string, text: string) returns (r: bool)
    ensures r <==> Means(re, text)
  {
    if re != "" && re[0] == '^' {
      r := MatchHere(re[1..], text);
      return;
    }
    var i := 0;
    while true
      invariant 0 <= i <= |text|
      invariant forall b :: 0 <= b < i ==> !Here(Parse(re), text[b..])
      decreases |text| - i
    {
      r := MatchHere(re, text[i..]);
      if r || i == |text| {
        return;
      }
      i := i + 1;
    }
  }

  // The lines.

  const BUFSIZE: nat := 1024

  /** The index of the first newline, or |s|. */
  function LineEnd(s: string): (i: nat)
    ensures i <= |s| && (forall k :: 0 <= k < i ==> s[k] != '\n') && (i < |s| ==> s[i] == '\n')
  {
    if s == "" || s[0] == '\n' then 0 else 1 + LineEnd(s[1..])
  }

  /** What grep should print: the lines of s that end in a newline and that the pattern describes. */
  ghost function Selected(re: string, s: string): (out: string)
    decreases |s|
  {
    var i := LineEnd(s);
    if i == |s| then "" else (if Means(re, s[..i]) then s[..i + 1] else "") + Selected(re, s[i + 1..])
  }

  /** A line that, with its newline, does not fit the buffer and its NUL. */
  predicate TooLong(i: nat) {
    i >= BUFSIZE - 1
  }

  /** s up to its first line that is too long, finished or not. */
  function BeforeLong(s: string): (t: string)
    ensures t <= s
    decreases |s|
  {
    var i := LineEnd(s);
    if TooLong(i) then "" else if i == |s| then s else s[..i + 1] + BeforeLong(s[i + 1..])
  }

  /** What grep prints. */
  ghost function Printed(re: string, s: string): (out: string)
    decreases |s|
  {
    var i := LineEnd(s);
    if i == |s| || TooLong(i) then "" else (if Means(re, s[..i]) then s[..i + 1] else "") + Printed(re, s[i + 1..])
  }

  lemma LineEndIs(s: string, i: nat)
    requires i <= |s| && (forall k :: 0 <= k < i ==> s[k] != '\n') && (i < |s| ==> s[i] == '\n')
    ensures LineEnd(s) == i
  {
  }

  /** grep prints what it should of the lines before the first that is too long. */
  lemma {:induction false} PrintedIsSelected(re: string, s: string)
    ensures Printed(re, s) == Selected(re, BeforeLong(s))
    decreases |s|
  {
    var i := LineEnd(s);
    if i < |s| && !TooLong(i) {
      PrintedIsSelected(re, s[i + 1..]);
      var t := BeforeLong(s);
      LineEndIs(t, i);
      assert t[..i] == s[..i] && t[..i + 1] == s[..i + 1] && t[i + 1..] == BeforeLong(s[i + 1..]);
    } else {
      LineEndIs("", 0);
    }
  }

  /** Every finished line fits. */
  predicate LinesFit(s: string)
    decreases |s|
  {
    var i := LineEnd(s);
    i == |s| || (!TooLong(i) && LinesFit(s[i + 1..]))
  }

  lemma {:induction false} FittingIsSelected(re: string, s: string)
    requires LinesFit(s)
    ensures Printed(re, s) == Selected(re, s)
    decreases |s|
  {
    var i := LineEnd(s);
    if i < |s| {
      FittingIsSelected(re, s[i + 1..]);
    }
  }

  /** The empty pattern describes every line. */
  lemma EmptyMeans(text: string)
    ensures Means("", text)
  {
    assert text[0..] == text;
    HereNone(false, text[0..]);
  }

  lemma {:induction false} LongLosesLines(s: string)
    ensures |Printed("", s)| <= |Selected("", s)|
    ensures !LinesFit(s) ==> |Printed("", s)| < |Selected("", s)|
    decreases |s|
  {
    var i := LineEnd(s);
    if i < |s| {
      EmptyMeans(s[..i]);
      LongLosesLines(s[i + 1..]);
    }
  }

  /** grep prints what it should, for every pattern, just when every finished line fits. */
  lemma ExactWhenLinesFit(s: string)
    ensures (forall re :: Printed(re, s) == Selected(re, s)) <==> LinesFit(s)
  {
    if LinesFit(s) {
      forall re
        ensures Printed(re, s) == Selected(re, s)
      {
        FittingIsSelected(re, s);
      }
    } else {
      LongLosesLines(s);
    }
  }

  // The loop.

  predicate NulFree(s: string) {
    forall k :: 0 <= k < |s| ==> s[k] != '\0'
  }

  /** The C string at the start of s. */
  function CString(s: string): (t: string) {
    if s == "" || s[0] == '\0' then "" else [s[0]] + CString(s[1..])
  }

  lemma {:induction false} CStringIs(s: string, k: nat)
    requires k < |s| && s[k] == '\0' && NulFree(s[..k])
    ensures CString(s) == s[..k]
  {
    if k > 0 {
      assert s[..k][0] == s[0];
      assert s[1..][..k - 1] == s[..k][1..];
      CStringIs(s[1..], k - 1);
      assert s[..k] == [s[0]] + s[1..][..k - 1];
    }
  }

  /** strchr(buf + p, '\n'), where the string ends at m. */
  method Strchr(buf: array<char>, p: nat, m: nat) returns (found: bool, q: nat)
    requires p <= m < buf.Length && buf[m] == '\0' && NulFree(buf[p..m])
    ensures q == p + LineEnd(buf[p..m]) && (found <==> q < m)
  {
    q := p;
    while buf[q] != '\0' && buf[q] != '\n'
      invariant p <= q <= m && forall k :: p <= k < q ==> buf[k] != '\n'
      decreases m - q
    {
      q := q + 1;
    }
    assert q < m ==> buf[p..m][q - p] != '\0';
    found := buf[q] == '\n';
    LineEndIs(buf[p..m], q - p);
  }

  /** How many bytes read gives: at least one unless there is no room or no input left; otherwise as the
      outside decides. */
  function ReadSize(want: nat, room: nat, left: nat): (n: nat)
    ensures n <= room && n <= left && (n == 0 <==> room == 0 || left == 0)
  {
    var most := if room < left then room else left;
    if most == 0 then 0 else if want == 0 then 1 else if want > most then most else want
  }

  /** out is what grep prints while it goes from s to the rest t of it. */
  ghost predicate Emits(re: string, s: string, out: string, t: string) {
    out + Printed(re, t) == Printed(re, s)
  }

  lemma EmitsThen(re: string, s: string, out: string, t: string, out': string, u: string)
    requires Emits(re, s, out, t) && Emits(re, t, out', u)
    ensures Emits(re, s, out + out', u)
  {
    Associates(out, out', Printed(re, u));
  }

  lemma Associates(a: string, b: string, c: string)
    ensures a + b + c == a + (b + c)
  {
  }

  lemma EmitsNone(re: string, s: string)
    ensures Emits(re, s, "", s)
  {
  }

  /** What grep prints of a line. */
  ghost function Line(re: string, line: string): (o: string) {
    if Means(re, line) then line + "\n" else ""
  }

  lemma {:induction false} EmitsLine(re: string, s: string, line: string, t: string)
    requires s == line + "\n" + t && LineEnd(s) == |line| && !TooLong(|line|)
    ensures Emits(re, s, Line(re, line), t)
  {
    assert s[..|line|] == line && s[..|line| + 1] == line + "\n" && s[|line| + 1..] == t;
  }

  lemma LineStep(re: string, b: string, p: nat, q: nat, m: nat, tail: string, s: string, t: string)
    requires p <= q < m <= |b| && m - p < BUFSIZE && q == p + LineEnd(b[p..m])
    requires s == b[p..m] + tail && t == b[q + 1..m] + tail
    ensures b[q] == '\n' && Emits(re, s, Line(re, b[p..q]), t)
  {
    var line := b[p..q];
    assert b[p..m][q - p] == b[q];
    assert b[p..m] == line + "\n" + b[q + 1..m];
    Associates(line + "\n", b[q + 1..m], tail);
    assert forall k :: 0 <= k < q - p ==> s[k] == b[p..m][k];
    LineEndIs(s, q - p);
    EmitsLine(re, s, line, t);
  }

  lemma Parts(x: string, p: nat, q: nat, m: nat)
    requires p <= q <= m <= |x|
    ensures x[p..m][..q - p] == x[p..q] && x[p..m][q - p..] == x[q..m]
  {
    assert x[p..m] == x[p..q] + x[q..m];
  }

  lemma SameParts(x: string, b: string, p: nat, q: nat, m: nat)
    requires p <= q <= m <= |x| && m <= |b| && x[p..m] == b[p..m]
    ensures x[p..q] == b[p..q] && x[q..m] == b[q..m]
  {
    Parts(x, p, q, m);
    Parts(b, p, q, m);
  }

  /** The finished line of the buffer from p to q. */
  method PrintLine(re: string, buf: array<char>, p: nat, q: nat) returns (o: string)
    requires p <= q < buf.Length && buf[q] == '\n' && NulFree(buf[p..q])
    modifies buf
    ensures o == Line(re, old(buf[p..q]))
    ensures buf[q + 1..] == old(buf[q + 1..])
  {
    buf[q] := '\0';
    assert buf[p..][..q - p] == buf[p..q] == old(buf[p..q]);
    CStringIs(buf[p..], q - p);
    var r := Match(re, CString(buf[p..]));
    o := "";
    if r {
      buf[q] := '\n';
      o := buf[p..q + 1];
    }
  }

  lemma StillThere(x: string, y: string, q: nat, m: nat)
    requires |x| == |y| && q <= m < |x| && x[q..] == y[q..]
    ensures x[q..m] == y[q..m] && x[m] == y[m]
  {
    assert x[q..|x|] == x[q..] && y[q..|y|] == y[q..];
    Parts(x, q, m, |x|);
    Parts(y, q, m, |y|);
    assert x[m] == x[q..][m - q] && y[m] == y[q..][m - q];
  }

  /** One pass of the inner loop: the next finished line of the buffer, if there is one; b is the buffer before. */
  method NextLine(re: string, buf: array<char>, p: nat, m: nat, ghost b: string)
    returns (found: bool, o: string, q: nat)
    requires p <= m < buf.Length == BUFSIZE && buf[m] == '\0' && |b| == m && buf[p..m] == b[p..m] && NulFree(b)
    modifies buf
    ensures q == p + LineEnd(b[p..m]) && (found <==> q < m) && buf[m] == '\0'
    ensures if found then o == Line(re, b[p..q]) && buf[q + 1..m] == b[q + 1..m] else unchanged(buf)
  {
    found, q := Strchr(buf, p, m);
    o := "";
    if found {
      ghost var x := buf[..];
      SameParts(x, b, p, q, m);
      SameParts(x, b, p, q + 1, m);
      assert b[q] == b[p..m][q - p] == buf[q];
      o := PrintLine(re, buf, p, q);
      StillThere(x, buf[..], q + 1, m);
    }
  }

  /** The inner loop: the finished lines of the buffer. b is the buffer before, tail the input after it. */
  method PrintLines(re: string, buf: array<char>, m: nat, ghost b: string, ghost tail: string)
    returns (o: string, p: nat)
    requires m < buf.Length == BUFSIZE && buf[m] == '\0' && b == buf[..m] && NulFree(b)
    modifies buf
    ensures p <= m && LineEnd(b[p..m]) == m - p && buf[p..m] == b[p..m]
    ensures Emits(re, b + tail, o, b[p..m] + tail)
  {
    o, p := "", 0;
    ghost var all := b + tail;
    ghost var rest := all;
    assert b[0..m] == b == buf[0..m];
    EmitsNone(re, all);
    while true
      invariant p <= m && buf[m] == '\0' && buf[p..m] == b[p..m] && rest == b[p..m] + tail
      invariant Emits(re, all, o, rest)
      decreases m - p
    {
      var found, o1, q := NextLine(re, buf, p, m, b);
      if !found {
        return;
      }
      ghost var rest1 := b[q + 1..m] + tail;
      LineStep(re, b, p, q, m, tail, rest, rest1);
      EmitsThen(re, all, o, rest, o1, rest1);
      o, p, rest := o + o1, q + 1, rest1;
    }
  }

  /** memmove(buf, buf + p, m). */
  method MoveDown(buf: array<char>, p: nat, m: nat)
    requires p + m <= buf.Length
    modifies buf
    ensures buf[..m] == old(buf[p..p + m])
  {
    forall k | 0 <= k < m {
      buf[k] := buf[p + k];
    }
  }

  /** read(fd, buf + m, n). */
  method Fill(buf: array<char>, m: nat, s: string)
    requires m + |s| <= buf.Length
    modifies buf
    ensures buf[..m + |s|] == old(buf[..m]) + s
  {
    forall k | 0 <= k < |s| {
      buf[m + k] := s[k];
    }
  }

  /** One pass of the outer loop: held is the unfinished line in the buffer, chunk what read gave, tail what
      it has not given yet. */
  method Pass(re: string, buf: array<char>, m: nat, chunk: string, ghost held: string, ghost tail: string)
    returns (o: string, m': nat, ghost held': string)
    requires m + |chunk| < buf.Length == BUFSIZE && held == buf[..m] && NulFree(held + chunk)
    modifies buf
    ensures m' < BUFSIZE && held' == buf[..m'] && LineEnd(held') == m' && NulFree(held')
    ensures Emits(re, held + chunk + tail, o, held' + tail)
  {
    Fill(buf, m, chunk);
    var end := m + |chunk|;
    ghost var b := held + chunk;
    buf[end] := '\0';
    assert buf[..end] == b;
    var p;
    o, p := PrintLines(re, buf, end, b, tail);
    held' := b[p..end];
    m' := end - p;
    MoveDown(buf, p, m');
  }

  lemma Regroup(held: string, input: string, pos: nat, next: nat)
    requires pos <= next <= |input|
    ensures held + input[pos..] == held + input[pos..next] + input[next..]
  {
    assert input[pos..] == input[pos..next] + input[next..];
    Associates(held, input[pos..next], input[next..]);
  }

  /** An unfinished line is not printed, nor one that fills the buffer, nor anything after it. */
  lemma NothingMore(re: string, held: string, rest: string)
    requires LineEnd(held) == |held| && (rest == "" || |held| == BUFSIZE - 1)
    ensures Printed(re, held + rest) == ""
  {
    var s := held + rest;
    var i := LineEnd(s);
    assert forall j :: 0 <= j < |held| ==> s[j] == held[j];
    assert i >= |held|;
  }

  lemma EmitsAll(re: string, s: string, out: string, held: string, more: string, rest: string)
    requires Emits(re, s, out, rest) && rest == held + more
    requires LineEnd(held) == |held| && (more == "" || |held| == BUFSIZE - 1)
    ensures out == Printed(re, s)
  {
    NothingMore(re, held, more);
  }

  /** One pass with the bytes of the input from pos to next, which read gave; rest is what is still to come. */
  method ReadPass(re: string, buf: array<char>, m: nat, input: string, pos: nat, next: nat,
                  ghost held: string, ghost rest: string)
    returns (o: string, m': nat, ghost held': string, ghost rest': string)
    requires pos <= next <= |input| && m + next - pos < buf.Length == BUFSIZE
    requires held == buf[..m] && NulFree(held) && NulFree(input)
    requires rest == held + input[pos..]
    modifies buf
    ensures m' < BUFSIZE && held' == buf[..m'] && LineEnd(held') == m' && NulFree(held')
    ensures rest' == held' + input[next..] && Emits(re, rest, o, rest')
  {
    Regroup(held, input, pos, next);
    o, m', held' := Pass(re, buf, m, input[pos..next], held, input[next..]);
    rest' := held' + input[next..];
  }

  /** grep, on an input that read cuts up as wants says: what it prints does not depend on the cuts. */
  method Grep(re: string, input: string, wants: nat -> nat) returns (out: string)
    requires NulFree(input)
    ensures out == Printed(re, input)
  {
    var buf := new char[BUFSIZE];
    var m: nat, pos: nat, k: nat := 0, 0, 0;
    ghost var held, rest := "", input;
    out := "";
    assert held + input[0..] == input;
    EmitsNone(re, input);
    while true
      invariant m < BUFSIZE && pos <= |input|
      invariant held == buf[..m] && LineEnd(held) == m && NulFree(held)
      invariant rest == held + input[pos..] && Emits(re, input, out, rest)
      decreases |input| - pos
    {
      var n := ReadSize(wants(k), BUFSIZE - m - 1, |input| - pos);
      k := k + 1;
      if n == 0 {
        EmitsAll(re, input, out, held, input[pos..], rest);
        return;
      }
      var o;
      ghost var rest1;
      var next := pos + n;
      o, m, held, rest1 := ReadPass(re, buf, m, input, pos, next, held, rest);
      EmitsThen(re, input, out, rest, o, rest1);
      out, pos, rest := out + o, next, rest1;
    }
  }
}
