/** The INI parser: a buffer of one line that is cut up in place, with the current section
    and the last name carried from line to line. */
module Ini {
  import opened Bytes

  const NUL: char := '\0'
  const LINE_ROOM: nat := 199
  const SECTION_ROOM: nat := 49
  const NAME_ROOM: nat := 49

  predicate IsSpace(c: char) {
    c == ' ' || c == '\t' || c == '\n' || c == '\r' || c == 11 as char || c == 12 as char
  }

  // ---- strings -----------------------------------------------------------------------

  function TrimRight(s: string): (r: string)
    ensures r <= s
  {
    if s != [] && IsSpace(s[|s| - 1]) then TrimRight(s[..|s| - 1]) else s
  }

  function TrimLeft(s: string): (r: string)
    ensures |r| <= |s| && r == s[|s| - |r|..]
  {
    if s != [] && IsSpace(s[0]) then TrimLeft(s[1..]) else s
  }

  /** Whether a `;` at `i` starts a comment: only right behind white space. */
  predicate CommentAt(s: string, i: nat)
    requires i < |s|
  {
    s[i] == ';' && i > 0 && IsSpace(s[i - 1])
  }

  /** The first `c` or comment at or behind `i`, or the end. */
  function Find(s: string, c: char, i: nat): (r: nat)
    requires i <= |s|
    ensures i <= r <= |s|
    decreases |s| - i
  {
    if i == |s| || s[i] == c || CommentAt(s, i) then i else Find(s, c, i + 1)
  }

  /** `strncpy0` into a field with room for `n` characters. */
  function Cut(s: string, n: nat): (r: string)
    ensures r <= s && (|r| == n || (r == s && |s| < n))
  {
    if |s| <= n then s else s[..n]
  }

  /** Arguments of one handler call. */
  datatype Triple = Triple(section: string, name: string, value: string)

  /** What the parser carries from line to line. */
  datatype Carry = Carry(section: string, prevName: string)

  /** The effect of one line: what is carried on, the handler call, or an error. */
  datatype Effect = Effect(carry: Carry, call: Option<Triple>, bad: bool)

  /** Where name and value are separated. */
  function Separator(s: string): (e: nat)
    ensures e <= |s|
  {
    var e := Find(s, '=', 0);
    if e < |s| && s[e] == '=' then e else Find(s, ':', 0)
  }

  function Value(s: string): string { var v := TrimLeft(s); TrimRight(v[..Find(v, NUL, 0)]) }

  /** A line that starts with a bracket. */
  function SectionEffect(s: string, c: Carry): Effect
    requires s != []
  {
    var e := Find(s[1..], ']', 0);
    if e < |s| - 1 && s[1..][e] == ']' then Effect(Carry(Cut(s[1..][..e], SECTION_ROOM), []), None, false)
    else Effect(c, None, true)
  }

  /** Any other line: name, separator, value. */
  function PairEffect(s: string, c: Carry): Effect {
    var e := Separator(s);
    if e < |s| && (s[e] == '=' || s[e] == ':') then
      var name := TrimRight(s[..e]);
      Effect(c.(prevName := Cut(name, NAME_ROOM)), Some(Triple(c.section, name, Value(s[e + 1..]))), false)
    else Effect(c, None, true)
  }

  /** The reading of one line of the file. */
  function ReadingOf(line: string, c: Carry): Effect {
    var stripped := TrimRight(line);
    var s := TrimLeft(stripped);
    if s == [] || s[0] == ';' || s[0] == '#' then Effect(c, None, false)
    else if c.prevName != [] && |s| < |stripped| then Effect(c, Some(Triple(c.section, c.prevName, s)), false)
    else if s[0] == '[' then SectionEffect(s, c)
    else PairEffect(s, c)
  }

  // ---- the line buffer ---------------------------------------------------------------

  /** The zero-terminated string that starts at `i` of the buffer. */
  ghost predicate IsStr(b: seq<char>, i: nat, s: string) {
    i + |s| < |b| && b[i + |s|] == NUL && forall k :: 0 <= k < |s| ==> s[k] == b[i + k] && s[k] != NUL
  }

  method StrLen(a: array<char>, i: nat, ghost s: string) returns (n: nat)
    requires IsStr(a[..], i, s)
    ensures n == |s|
  {
    n := 0;
    while a[i + n] != NUL
      invariant n <= |s| && (n < |s| ==> a[i + n] == s[n])
      decreases |s| - n
    {
      n := n + 1;
    }
  }

  /** `rstrip`: overwrite white space at the end. */
  method RStrip(a: array<char>, i: nat, ghost s: string)
    requires IsStr(a[..], i, s)
    modifies a
    ensures IsStr(a[..], i, TrimRight(s))
    ensures forall k :: 0 <= k < i + |TrimRight(s)| || i + |s| <= k < a.Length ==> a[k] == old(a[k])
  {
    var n := StrLen(a, i, s);
    ghost var t := s;
    while n > 0 && IsSpace(a[i + n - 1])
      invariant n == |t| && IsStr(a[..], i, t) && t <= s && TrimRight(t) == TrimRight(s)
      invariant forall k :: 0 <= k < i + n || i + |s| <= k < a.Length ==> a[k] == old(a[k])
    {
      assert IsSpace(t[n - 1]);
      n := n - 1;
      a[i + n] := NUL;
      t := t[..n];
    }
  }

  lemma StrTail(b: seq<char>, i: nat, s: string)
    requires IsStr(b, i, s) && s != []
    ensures IsStr(b, i + 1, s[1..])
  {
  }

  /** `lskip`: the first character that is not white space. */
  method LSkip(a: array<char>, i: nat, ghost s: string) returns (p: nat)
    requires IsStr(a[..], i, s)
    ensures p == i + |s| - |TrimLeft(s)| && IsStr(a[..], p, TrimLeft(s))
  {
    p := i;
    ghost var t := s;
    hide IsSpace;
    while a[p] != NUL && IsSpace(a[p])
      invariant i <= p == i + |s| - |t| && IsStr(a[..], p, t) && TrimLeft(t) == TrimLeft(s)
      decreases |t|
    {
      assert t != [] && IsSpace(t[0]);
      StrTail(a[..], p, t);
      t := t[1..];
      p := p + 1;
    }
  }

  /** `find_char_or_comment`. */
  method FindCharOrComment(a: array<char>, i: nat, c: char, ghost s: string) returns (p: nat)
    requires IsStr(a[..], i, s)
    ensures p == i + Find(s, c, 0)
  {
    var wasSpace := false;
    p := i;
    ghost var n := 0;
    while a[p] != NUL && a[p] != c && !(wasSpace && a[p] == ';')
      invariant n <= |s| && p == i + n && Find(s, c, n) == Find(s, c, 0)
      invariant wasSpace == (n > 0 && IsSpace(s[n - 1]))
      decreases |s| - n
    {
      wasSpace := IsSpace(a[p]);
      p := p + 1;
      n := n + 1;
    }
  }

  /** The characters from `i` to the terminator, as the handler sees them. */
  method ReadStr(a: array<char>, i: nat, ghost s: string) returns (r: string)
    requires IsStr(a[..], i, s)
    ensures r == s
  {
    var n := StrLen(a, i, s);
    r := a[i..i + n];
  }

  lemma Shorter(b: seq<char>, i: nat, s: string, e: nat)
    requires IsStr(b, i, s) && e <= |s|
    ensures IsStr(b[i + e := NUL], i, s[..e])
    ensures e < |s| ==> IsStr(b[i + e := NUL], i + e + 1, s[e + 1..])
  {
  }

  /** The loop body of `ini_parse_file` for a line that starts with a bracket. */
  method SectionLine(a: array<char>, start: nat, c: Carry, ghost s: string) returns (r: Effect)
    requires IsStr(a[..], start, s) && s != [] && s[0] == '['
    modifies a
    ensures r == SectionEffect(s, c)
  {
    assert IsStr(a[..], start + 1, s[1..]);
    var end := FindCharOrComment(a, start + 1, ']', s[1..]);
    if a[end] == ']' {
      Shorter(a[..], start + 1, s[1..], end - start - 1);
      a[end] := NUL;
      var section := ReadStr(a, start + 1, s[1..][..end - start - 1]);
      return Effect(Carry(Cut(section, SECTION_ROOM), []), None, false);
    }
    r := Effect(c, None, true);
  }

  /** The loop body of `ini_parse_file` for a name and a value. */
  method PairLine(a: array<char>, start: nat, c: Carry, ghost s: string) returns (r: Effect)
    requires IsStr(a[..], start, s)
    modifies a
    ensures r == PairEffect(s, c)
  {
    hide TrimRight, TrimLeft, Value, Cut;
    var end := FindCharOrComment(a, start, '=', s);
    if a[end] != '=' {
      end := FindCharOrComment(a, start, ':', s);
    }
    assert end == start + Separator(s);
    hide Find, Separator;
    if a[end] == '=' || a[end] == ':' {
      var name, value := Split(a, start, end, s);
      return Effect(c.(prevName := Cut(name, NAME_ROOM)), Some(Triple(c.section, name, value)), false);
    }
    r := Effect(c, None, true);
  }

  /** Cut the line at `end`, strip the two parts in place and take them out. */
  method Split(a: array<char>, start: nat, end: nat, ghost s: string) returns (name: string, value: string)
    requires IsStr(a[..], start, s) && start <= end < start + |s|
    modifies a
    ensures name == TrimRight(s[..end - start]) && value == Value(s[end - start + 1..])
  {
    hide TrimRight, Value;
    ghost var left, right := s[..end - start], s[end - start + 1..];
    Shorter(a[..], start, s, end - start);
    a[end] := NUL;
    RStrip(a, start, left);
    assert IsStr(a[..], end + 1, right);
    value := CutValue(a, end + 1, right);
    assert IsStr(a[..], start, TrimRight(left));
    name := ReadStr(a, start, TrimRight(left));
  }

  /** Skip white space, drop a comment, strip what is left. */
  method CutValue(a: array<char>, from: nat, ghost s: string) returns (value: string)
    requires IsStr(a[..], from, s)
    modifies a
    ensures value == Value(s)
    ensures forall k :: 0 <= k < from ==> a[k] == old(a[k])
  {
    var v := LSkip(a, from, s);
    ghost var t := TrimLeft(s);
    ghost var cut := t[..Find(t, NUL, 0)];
    hide TrimLeft, TrimRight;
    DropComment(a, v, t);
    RStrip(a, v, cut);
    value := ReadStr(a, v, TrimRight(cut));
  }

  method DropComment(a: array<char>, v: nat, ghost t: string)
    requires IsStr(a[..], v, t)
    modifies a
    ensures IsStr(a[..], v, t[..Find(t, NUL, 0)])
    ensures forall k :: 0 <= k < v ==> a[k] == old(a[k])
  {
    var stop := FindCharOrComment(a, v, NUL, t);
    FindStops(t, NUL, 0);
    assert stop - v < |t| ==> t[stop - v] == a[stop] == ';';
    hide Find, CommentAt;
    if a[stop] == ';' {
      a[stop] := NUL;
    }
  }

  lemma {:induction false} FindStops(s: string, c: char, i: nat)
    requires i <= |s|
    ensures var r := Find(s, c, i); r == |s| || s[r] == c || CommentAt(s, r)
    decreases |s| - i
  {
    if i < |s| && s[i] != c && !CommentAt(s, i) {
      FindStops(s, c, i + 1);
    }
  }

  /** The whole loop body of `ini_parse_file`: one line, already read into the buffer. */
  method ProcessLine(line: array<char>, c: Carry, ghost s: string) returns (r: Effect)
    requires IsStr(line[..], 0, s)
    modifies line
    ensures r == ReadingOf(s, c)
  {
    hide TrimRight, TrimLeft, SectionEffect, PairEffect;
    RStrip(line, 0, s);
    ghost var stripped := TrimRight(s);
    var start := LSkip(line, 0, stripped);
    ghost var t := TrimLeft(stripped);
    if line[start] == ';' || line[start] == '#' {
      r := Effect(c, None, false);
    } else if c.prevName != [] && line[start] != NUL && start > 0 {
      var rest := ReadStr(line, start, t);
      r := Effect(c, Some(Triple(c.section, c.prevName, rest)), false);
    } else if line[start] == '[' {
      r := SectionLine(line, start, c, t);
    } else if line[start] != NUL && line[start] != ';' {
      r := PairLine(line, start, c, t);
    } else {
      r := Effect(c, None, false);
    }
  }

  // ---- the file ----------------------------------------------------------------------

  /** How many characters `fgets` takes: through the first line feed, up to the room. */
  function LineEnd(text: string, n: nat): (r: nat)
    requires n <= |text|
    ensures n <= r <= |text| && (n < |text| && n < LINE_ROOM ==> n < r)
    decreases |text| - n
  {
    if n == |text| || n >= LINE_ROOM then n
    else if text[n] == '\n' then n + 1
    else LineEnd(text, n + 1)
  }

  /** What the C functions see of a line that contains a zero. */
  function UpToNul(s: string): (r: string)
    ensures r <= s && NUL !in r
  {
    if s == [] || s[0] == NUL then [] else [s[0]] + UpToNul(s[1..])
  }

  /** The calls made so far, with what the handler answered, and the first bad line. */
  datatype Outcome = Outcome(calls: seq<Triple>, error: nat)

  /** `ini_parse_file` from line `lineno + 1` on; `ok(k)` is the answer to the k-th call. */
  ghost function Parse(text: string, lineno: nat, c: Carry, so: Outcome, ok: nat -> bool): Outcome
    decreases |text|
  {
    if text == [] then so
    else
      var n := LineEnd(text, 0);
      var e := ReadingOf(UpToNul(text[..n]), c);
      Parse(text[n..], lineno + 1, e.carry, After(so, e, lineno + 1, ok), ok)
  }

  ghost function After(so: Outcome, e: Effect, lineno: nat, ok: nat -> bool): Outcome {
    var failed := e.bad || (e.call.Some? && !ok(|so.calls|));
    Outcome(if e.call.Some? then so.calls + [e.call.value] else so.calls,
            if failed && so.error == 0 then lineno else so.error)
  }

  lemma {:induction false} NulEnds(s: string, n: nat)
    requires n <= |s| && (forall k :: 0 <= k < n ==> s[k] != NUL) && (n < |s| ==> s[n] == NUL)
    ensures UpToNul(s) == s[..n]
  {
    if n > 0 {
      NulEnds(s[1..], n - 1);
    }
  }

  lemma {:induction false} NulLength(s: string)
    ensures forall k :: 0 <= k < |UpToNul(s)| ==> UpToNul(s)[k] == s[k] && s[k] != NUL
    ensures |UpToNul(s)| < |s| ==> s[|UpToNul(s)|] == NUL
  {
    if s != [] && s[0] != NUL {
      NulLength(s[1..]);
    }
  }

  /** `fgets` into the line buffer. */
  method FillLine(line: array<char>, chunk: string)
    requires |chunk| < line.Length
    modifies line
    ensures IsStr(line[..], 0, UpToNul(chunk))
  {
    forall k | 0 <= k < |chunk| {
      line[k] := chunk[k];
    }
    line[|chunk|] := NUL;
    NulLength(chunk);
  }

  lemma LineFits(text: string, n: nat)
    requires n <= |text| && n <= LINE_ROOM
    ensures LineEnd(text, n) <= LINE_ROOM
    decreases |text| - n
  {
  }

  /** `ini_parse_file`. */
  method ParseFile(text: string, ok: nat -> bool) returns (r: Outcome)
    ensures r == Parse(text, 0, Carry([], []), Outcome([], 0), ok)
  {
    var line := new char[LINE_ROOM + 1](_ => NUL);
    var rest, lineno, c := text, 0, Carry([], []);
    r := Outcome([], 0);
    while rest != []
      invariant Parse(rest, lineno, c, r, ok) == Parse(text, 0, Carry([], []), Outcome([], 0), ok)
      decreases |rest|
    {
      var n := LineEnd(rest, 0);
      LineFits(rest, 0);
      lineno := lineno + 1;
      FillLine(line, rest[..n]);
      var e := ProcessLine(line, c, UpToNul(rest[..n]));
      var failed := e.bad;
      var calls := r.calls;
      if e.call.Some? {
        failed := failed || !ok(|r.calls|);
        calls := calls + [e.call.value];
      }
      r := Outcome(calls, if failed && r.error == 0 then lineno else r.error);
      c := e.carry;
      rest := rest[n..];
    }
  }

  // ---- lines and errors --------------------------------------------------------------

  /** Where `fgets` ends a line: behind the first line feed, or at the end of the text, or
      where the buffer is full. */
  lemma LineEndIs(text: string)
    requires text != []
    ensures var n := LineEnd(text, 0);
      && 1 <= n <= 199 && n <= |text|
      && (forall k :: 0 <= k < n - 1 ==> text[k] != '\n')
      && (text[n - 1] == '\n' || n == 199 || n == |text|)
  {
    LineEndFrom(text, 0);
  }

  lemma {:induction false} LineEndFrom(text: string, i: nat)
    requires i < |text| && i < LINE_ROOM
    ensures var n := LineEnd(text, i);
      && i < n <= LINE_ROOM && n <= |text|
      && (forall k :: i <= k < n - 1 ==> text[k] != '\n')
      && (text[n - 1] == '\n' || n == LINE_ROOM || n == |text|)
    decreases |text| - i
  {
    if text[i] != '\n' && i + 1 < |text| && i + 1 < LINE_ROOM {
      LineEndFrom(text, i + 1);
    }
  }

  /** For every line whether it is malformed, or its call was refused by the handler. */
  ghost function Faults(text: string, c: Carry, calls: nat, ok: nat -> bool): seq<bool>
    decreases |text|
  {
    if text == [] then []
    else
      var n := LineEnd(text, 0);
      var e := ReadingOf(UpToNul(text[..n]), c);
      [e.bad || (e.call.Some? && !ok(calls))] + Faults(text[n..], e.carry, calls + if e.call.Some? then 1 else 0, ok)
  }

  ghost predicate FirstOf(faults: seq<bool>, n: nat) {
    if n == 0 then forall k :: 0 <= k < |faults| ==> !faults[k]
    else n <= |faults| && faults[n - 1] && forall k :: 0 <= k < n - 1 ==> !faults[k]
  }

  lemma {:induction false} ParseKeepsError(text: string, lineno: nat, c: Carry, so: Outcome, ok: nat -> bool)
    requires so.error != 0
    ensures Parse(text, lineno, c, so, ok).error == so.error
    decreases |text|
  {
    if text != [] {
      var n := LineEnd(text, 0);
      var e := ReadingOf(UpToNul(text[..n]), c);
      ParseKeepsError(text[n..], lineno + 1, e.carry, After(so, e, lineno + 1, ok), ok);
    }
  }

  lemma FirstOfMore(fault: bool, faults: seq<bool>, n: nat)
    ensures fault ==> FirstOf([fault] + faults, 1)
    ensures !fault && FirstOf(faults, n) ==> FirstOf([fault] + faults, if n == 0 then 0 else n + 1)
  {
    var all := [fault] + faults;
    assert forall k :: 0 < k < |all| ==> all[k] == faults[k - 1];
  }

  lemma {:induction false} FirstError(text: string, lineno: nat, c: Carry, so: Outcome, ok: nat -> bool) returns (n: nat)
    requires so.error == 0
    ensures FirstOf(Faults(text, c, |so.calls|, ok), n)
    ensures Parse(text, lineno, c, so, ok).error == if n == 0 then 0 else lineno + n
    decreases |text|
  {
    hide FirstOf, ReadingOf, LineEnd, UpToNul;
    if text == [] {
      n := 0;
      assert FirstOf([], 0) by { NoFaults(); }
    } else {
      var k := LineEnd(text, 0);
      var e := ReadingOf(UpToNul(text[..k]), c);
      var next := After(so, e, lineno + 1, ok);
      var fault := e.bad || (e.call.Some? && !ok(|so.calls|));
      var calls := |so.calls| + if e.call.Some? then 1 else 0;
      var more := Faults(text[k..], e.carry, calls, ok);
      assert Faults(text, c, |so.calls|, ok) == [fault] + more;
      assert Parse(text, lineno, c, so, ok) == Parse(text[k..], lineno + 1, e.carry, next, ok);
      assert |next.calls| == calls && (next.error == 0 <==> !fault) && (fault ==> next.error == lineno + 1);
      hide Faults, Parse, After;
      if fault {
        ParseKeepsError(text[k..], lineno + 1, e.carry, next, ok);
        FirstOfMore(fault, more, 0);
        n := 1;
      } else {
        var m := FirstError(text[k..], lineno + 1, e.carry, next, ok);
        FirstOfMore(fault, more, m);
        n := if m == 0 then 0 else m + 1;
      }
    }
  }

  lemma NoFaults()
    ensures FirstOf([], 0)
  {
  }

  /** On any text the parser returns the number of the first line that is malformed or refused
      by the handler, and 0 if there is none. */
  lemma ErrorIsFirst(text: string, ok: nat -> bool)
    ensures FirstOf(Faults(text, Carry([], []), 0, ok), Parse(text, 0, Carry([], []), Outcome([], 0), ok).error)
  {
    hide Parse, Faults, FirstOf;
    var n := FirstError(text, 0, Carry([], []), Outcome([], 0), ok);
  }

  // ---- printing ----------------------------------------------------------------------

  /** A line of a file, with free padding where the grammar allows it: a section; a pair, with
      either separator and perhaps a comment behind it; a line that continues the last pair; a
      comment; white space; or a malformed line. */
  datatype Item =
    | Section(name: string, after: string)
    | Pair(name: string, pad1: string, sep: char, pad2: string, value: string, pad3: string, comment: Option<string>)
    | More(indent: string, text: string)
    | Remark(indent: string, mark: char, text: string)
    | Blank(indent: string)
    | Bad(text: string)
  {
    predicate Calls?() { Pair? || More? }
  }

  function Comment(comment: Option<string>): string {
    if comment.Some? then [';'] + comment.value else []
  }

  function Body(item: Item): string {
    match item
    case Section(name, after) => ['['] + name + [']'] + after
    case Pair(name, pad1, sep, pad2, value, pad3, comment) => name + pad1 + [sep] + pad2 + value + pad3 + Comment(comment)
    case More(indent, text) => indent + text
    case Remark(indent, mark, text) => indent + [mark] + text
    case Blank(indent) => indent
    case Bad(text) => text
  }

  ghost predicate Spaces(s: string) { forall i :: 0 <= i < |s| ==> IsSpace(s[i]) }

  ghost predicate Trimmed(s: string) { s != [] ==> !IsSpace(s[0]) && !IsSpace(s[|s| - 1]) }

  ghost predicate NoComment(s: string) { forall i :: 0 <= i < |s| ==> !CommentAt(s, i) }

  ghost predicate Clean(s: string) { forall i :: 0 <= i < |s| ==> s[i] != '\n' && s[i] != NUL }

  /** A name and a value that the grammar can tell apart. An empty value cannot have a comment
      behind it: see `EmptyValueTakesComment`. */
  ghost predicate PairOk(name: string, pad1: string, sep: char, pad2: string, value: string, pad3: string, comment: Option<string>) {
    && name != [] && name[0] !in {';', '#', '['} && '=' !in name
    && (sep == '=' || (sep == ':' && ':' !in name && '=' !in value))
    && Trimmed(name) && NoComment(name) && Trimmed(value) && NoComment(value)
    && Spaces(pad1) && Spaces(pad2) && Spaces(pad3)
    && (comment.Some? ==> value != [] && pad3 != [])
  }

  /** Short enough for the line buffer, free of the grammar's special forms, and what it is
      meant to be behind a pair with the name `prev`, or behind none. */
  ghost predicate Printable(item: Item, prev: string) {
    && |Body(item)| < LINE_ROOM && Clean(Body(item))
    && match item
       case Section(name, after) => ']' !in name && NoComment(name)
       case Pair(name, pad1, sep, pad2, value, pad3, comment) => PairOk(name, pad1, sep, pad2, value, pad3, comment)
       case More(indent, text) =>
         prev != [] && indent != [] && Spaces(indent) && text != [] && Trimmed(text) && text[0] !in {';', '#'}
       case Remark(indent, mark, _) => Spaces(indent) && mark in {';', '#'}
       case Blank(indent) => Spaces(indent)
       case Bad(text) =>
         && text != [] && Trimmed(text) && text[0] !in {';', '#'}
         && if text[0] == '[' then ']' !in text else '=' !in text && ':' !in text
  }

  /** The name a continuation line would belong to. */
  ghost function Named(item: Item, prev: string): string {
    match item
    case Section(_, _) => []
    case Pair(name, _, _, _, _, _, _) => Cut(name, 49)
    case _ => prev
  }

  ghost predicate AllPrintable(items: seq<Item>, prev: string) {
    items != [] ==> Printable(items[0], prev) && AllPrintable(items[1..], Named(items[0], prev))
  }

  ghost function Print(items: seq<Item>): string {
    if items == [] then [] else Body(items[0]) + ['\n'] + Print(items[1..])
  }

  /** The handler calls the items stand for. */
  ghost function Triples(items: seq<Item>, section: string, prev: string): seq<Triple> {
    if items == [] then []
    else
      var prev' := Named(items[0], prev);
      match items[0]
      case Section(name, _) => Triples(items[1..], Cut(name, 49), prev')
      case Pair(name, _, _, _, value, _, _) => [Triple(section, name, value)] + Triples(items[1..], section, prev')
      case More(_, text) => [Triple(section, prev, text)] + Triples(items[1..], section, prev')
      case _ => Triples(items[1..], section, prev')
  }

  /** The number of the first malformed item or refused call, counted from `lineno`, or 0. */
  ghost function FirstFault(items: seq<Item>, lineno: nat, calls: nat, ok: nat -> bool): nat {
    if items == [] then 0
    else if items[0].Bad? || (items[0].Calls?() && !ok(calls)) then lineno + 1
    else FirstFault(items[1..], lineno + 1, calls + if items[0].Calls?() then 1 else 0, ok)
  }

  lemma {:induction false} TrimRightPad(x: string, pad: string)
    requires Spaces(pad) && (x == [] || !IsSpace(x[|x| - 1]))
    ensures TrimRight(x + pad) == x
    decreases |pad|
  {
    if pad == [] {
      assert x + pad == x;
    } else {
      assert (x + pad)[|x + pad| - 1] == pad[|pad| - 1];
      assert (x + pad)[..|x + pad| - 1] == x + pad[..|pad| - 1];
      TrimRightPad(x, pad[..|pad| - 1]);
    }
  }

  lemma {:induction false} TrimLeftPad(pad: string, x: string)
    requires Spaces(pad) && (x == [] || !IsSpace(x[0]))
    ensures TrimLeft(pad + x) == x
    decreases |pad|
  {
    if pad == [] {
      assert pad + x == x;
    } else {
      assert (pad + x)[0] == pad[0] && (pad + x)[1..] == pad[1..] + x;
      TrimLeftPad(pad[1..], x);
    }
  }

  lemma {:induction false} FindPasses(s: string, c: char, i: nat, j: nat)
    requires i <= j <= |s| && forall k :: i <= k < j ==> s[k] != c && !CommentAt(s, k)
    ensures Find(s, c, i) == Find(s, c, j)
    decreases j - i
  {
    if i < j {
      FindPasses(s, c, i + 1, j);
    }
  }

  /** A text without comment, then `c`: that is where the search stops. */
  lemma FindAfter(x: string, c: char, y: string)
    requires c !in x && NoComment(x) && c != ';'
    ensures Find(x + [c] + y, c, 0) == |x|
  {
    var s := x + [c] + y;
    forall k | 0 <= k < |x|
      ensures s[k] != c && !CommentAt(s, k)
    {
      assert s[k] == x[k] && !CommentAt(x, k);
      assert k > 0 ==> s[k - 1] == x[k - 1];
    }
    FindPasses(s, c, 0, |x|);
    assert s[|x|] == c;
  }

  /** Stripping at the end stops at the latest at a character that is not white space. */
  lemma {:induction false} KeepsMark(s: string, k: nat)
    requires k < |s| && !IsSpace(s[k])
    ensures k < |TrimRight(s)|
    decreases |s|
  {
    if IsSpace(s[|s| - 1]) {
      KeepsMark(s[..|s| - 1], k);
    }
  }

  lemma NoCommentThenSpaces(x: string, pad: string)
    requires NoComment(x) && Spaces(pad)
    ensures NoComment(x + pad)
  {
    var s := x + pad;
    forall i | 0 <= i < |s|
      ensures !CommentAt(s, i)
    {
      if i < |x| {
        assert s[i] == x[i] && !CommentAt(x, i);
        assert i > 0 ==> s[i - 1] == x[i - 1];
      } else {
        assert s[i] == pad[i - |x|];
      }
    }
  }

  lemma NothingToFind(value: string)
    requires NoComment(value) && NUL !in value
    ensures Find(value, NUL, 0) == |value|
  {
    FindPasses(value, NUL, 0, |value|);
  }

  lemma EmptyValue()
    ensures Value([]) == []
  {
  }

  /** What stays of a line behind its last fixed character. */
  lemma StripBehind(x: string, y: string) returns (rest: string)
    requires x != [] && !IsSpace(x[|x| - 1])
    ensures TrimRight(x + y) == x + rest && rest <= y
  {
    KeepsMark(x + y, |x| - 1);
    var t := TrimRight(x + y);
    rest := t[|x|..];
    assert t == (x + y)[..|t|] == x + y[..|t| - |x|];
  }

  lemma ReadSection(name: string, after: string, c: Carry)
    requires Printable(Section(name, after), c.prevName)
    ensures ReadingOf(Body(Section(name, after)) + ['\n'], c) == Effect(Carry(Cut(name, 49), []), None, false)
  {
    var x := ['['] + name + [']'];
    assert Body(Section(name, after)) + ['\n'] == x + (after + ['\n']);
    var rest := StripBehind(x, after + ['\n']);
    SectionIs(name, rest, c);
    hide *;
    assert (x + rest)[0] == '[';
    BracketLine(Body(Section(name, after)) + ['\n'], x + rest, c);
  }

  lemma BracketLine(line: string, s: string, c: Carry)
    requires TrimRight(line) == s && s != [] && s[0] == '['
    ensures ReadingOf(line, c) == SectionEffect(s, c)
  {
    hide SectionEffect, TrimRight;
    assert TrimLeft(s) == s;
  }

  lemma SectionIs(name: string, rest: string, c: Carry)
    requires ']' !in name && NoComment(name)
    ensures SectionEffect(['['] + name + [']'] + rest, c) == Effect(Carry(Cut(name, 49), []), None, false)
  {
    FindAfter(name, ']', rest);
    hide Find, NoComment;
    var s := ['['] + name + [']'] + rest;
    assert s[1..] == name + [']'] + rest && s[1..][..|name|] == name;
  }

  lemma ReadRemark(item: Item, c: Carry)
    requires Printable(item, c.prevName) && (item.Remark? || item.Blank?)
    ensures ReadingOf(Body(item) + ['\n'], c) == Effect(c, None, false)
  {
    match item
    case Blank(indent) =>
      TrimRightPad([], indent + ['\n']);
      assert [] + (indent + ['\n']) == indent + ['\n'];
    case Remark(indent, mark, text) =>
      var line := Body(item) + ['\n'];
      KeepsMark(line, |indent|);
      var t := TrimRight(line);
      assert t == indent + t[|indent|..];
      TrimLeftPad(indent, t[|indent|..]);
  }

  lemma ReadMore(indent: string, text: string, c: Carry)
    requires Printable(More(indent, text), c.prevName)
    ensures ReadingOf(indent + text + ['\n'], c) == Effect(c, Some(Triple(c.section, c.prevName, text)), false)
  {
    TrimRightPad(indent + text, ['\n']);
    TrimLeftPad(indent, text);
    hide TrimRight, TrimLeft;
  }

  /** The search for a character that is not there stops at the end or at a comment. */
  lemma NotFound(s: string, c: char)
    requires c !in s && c != ';'
    ensures var e := Find(s, c, 0); e == |s| || s[e] != c
  {
  }

  lemma ReadBad(text: string, c: Carry)
    requires Printable(Bad(text), c.prevName)
    ensures ReadingOf(text + ['\n'], c) == Effect(c, None, true)
  {
    TrimRightPad(text, ['\n']);
    hide TrimRight, Find;
    assert TrimLeft(text) == text;
    if text[0] == '[' {
      NotFound(text[1..], ']');
    } else {
      NotFound(text, '=');
      NotFound(text, ':');
    }
  }

  /** A search does not pass a comment. */
  lemma {:induction false} FindStopsAt(s: string, c: char, i: nat, j: nat)
    requires i <= j < |s| && CommentAt(s, j)
    ensures Find(s, c, i) <= j
    decreases j - i
  {
    if i < j && s[i] != c && !CommentAt(s, i) {
      FindStopsAt(s, c, i + 1, j);
    }
  }

  /** The value behind the separator, when the line ends with it. */
  lemma ReadValue(pad: string, value: string)
    requires Spaces(pad) && Trimmed(value) && NoComment(value) && NUL !in value
    ensures Value(if value == [] then [] else pad + value) == value
  {
    TrimLeftPad(pad, value);
    NothingToFind(value);
    TrimRightPad(value, []);
    hide TrimLeft, Find, NoComment;
    assert value[..|value|] == value && value + [] == value;
    EmptyValue();
  }

  /** The value behind the separator, when a comment follows. */
  lemma ReadCommented(pad2: string, value: string, pad3: string, rest: string)
    requires Spaces(pad2) && Spaces(pad3) && pad3 != [] && value != [] && Trimmed(value) && NoComment(value) && NUL !in value
    ensures Value(pad2 + value + pad3 + [';'] + rest) == value
  {
    var v := value + pad3 + [';'] + rest;
    assert pad2 + value + pad3 + [';'] + rest == pad2 + v;
    TrimLeftPad(pad2, v);
    NoCommentThenSpaces(value, pad3);
    FindComment(value + pad3, rest);
    TrimRightPad(value, pad3);
    hide TrimLeft, TrimRight, Find, NoComment, Spaces;
    assert v[..|value + pad3|] == value + pad3;
  }

  /** Behind a text without comment that ends with white space, a semicolon starts one. */
  lemma FindComment(x: string, rest: string)
    requires NoComment(x) && NUL !in x && x != [] && IsSpace(x[|x| - 1])
    ensures Find(x + [';'] + rest, NUL, 0) == |x|
  {
    var v, n := x + [';'] + rest, |x|;
    forall k | 0 <= k < n
      ensures v[k] != NUL && !CommentAt(v, k)
    {
      assert v[k] == x[k] && !CommentAt(x, k);
      assert k > 0 ==> v[k - 1] == x[k - 1];
    }
    FindPasses(v, NUL, 0, n);
    assert v[n - 1] == x[n - 1] && v[n] == ';' && CommentAt(v, n);
  }

  /** Behind the separator with nothing but white space, what looks like a comment is taken
      for the value. */
  lemma EmptyValueTakesComment(pad: string, text: string)
    requires Spaces(pad) && Trimmed([';'] + text) && NoComment([';'] + text) && NUL !in text
    ensures Value(pad + [';'] + text) == [';'] + text
  {
    assert pad + [';'] + text == pad + ([';'] + text);
    ReadValue(pad, [';'] + text);
  }

  /** The separator of a pair is found behind its name. */
  lemma SeparatorAt(key: string, sep: char, tail: string)
    requires NoComment(key) && '=' !in key && (sep == '=' || (sep == ':' && ':' !in key && NoEquals(tail)))
    ensures Separator(key + [sep] + tail) == |key|
  {
    var s := key + [sep] + tail;
    FindAfter(key, sep, tail);
    if sep == ':' {
      var e := Find(s, '=', 0);
      FindStops(s, '=', 0);
      if e < |s| && s[e] == '=' {
        var k: nat :| NoEqualsTo(tail, k);
        assert tail[e - |key| - 1] == '=';
        assert k <= e - |key| - 1;
        assert s[|key| + 1 + k] == tail[k] && s[|key| + k] == tail[k - 1];
        FindStopsAt(s, '=', 0, |key| + 1 + k);
        assert false;
      }
    }
  }

  /** No equals sign in `tail`, or none before a comment at `k`. */
  ghost predicate NoEqualsTo(tail: string, k: nat) {
    && k <= |tail| && (forall i :: 0 <= i < k ==> tail[i] != '=')
    && (k < |tail| ==> k > 0 && CommentAt(tail, k))
  }

  ghost predicate NoEquals(tail: string) { exists k: nat :: NoEqualsTo(tail, k) }

  /** The line of a pair stripped at the end: cut behind the value, or behind the separator. */
  lemma StripPair(front: string, pad2: string, value: string, pad3: string)
    requires front != [] && !IsSpace(front[|front| - 1])
    requires Spaces(pad2) && Trimmed(value) && Spaces(pad3)
    ensures TrimRight(front + pad2 + value + pad3 + ['\n']) == front + if value == [] then [] else pad2 + value
  {
    var tail := pad3 + ['\n'];
    if value == [] {
      assert front + pad2 + value + pad3 + ['\n'] == front + (pad2 + tail);
      TrimRightPad(front, pad2 + tail);
      assert front + [] == front;
    } else {
      assert front + pad2 + value + pad3 + ['\n'] == front + (pad2 + value) + tail;
      TrimRightPad(front + (pad2 + value), tail);
    }
  }

  /** A stripped line of key, separator and the rest. */
  lemma ReadKey(name: string, pad: string, sep: char, tail: string, c: Carry)
    requires name != [] && Trimmed(name) && NoComment(name) && Spaces(pad) && '=' !in name
    requires sep == '=' || (sep == ':' && ':' !in name && NoEquals(tail))
    ensures PairEffect(name + pad + [sep] + tail, c) ==
            Effect(c.(prevName := Cut(name, 49)), Some(Triple(c.section, name, Value(tail))), false)
  {
    var key := name + pad;
    var s := key + [sep] + tail;
    NoCommentThenSpaces(name, pad);
    assert '=' !in pad && ':' !in pad;
    SeparatorAt(key, sep, tail);
    TrimRightPad(name, pad);
    hide Find, TrimRight, Value, Separator;
    assert s[|key|] == sep && s[..|key|] == key && s[|key| + 1..] == tail;
  }

  lemma PlainLine(line: string, s: string, c: Carry)
    requires TrimRight(line) == s && s != [] && !IsSpace(s[0]) && s[0] !in {';', '#', '['}
    ensures ReadingOf(line, c) == PairEffect(s, c)
  {
    hide PairEffect, TrimRight;
    assert TrimLeft(s) == s;
  }

  /** A pair's line stripped at the end, from the separator on; and what it is read as. */
  lemma StripTail(front: string, pad2: string, value: string, pad3: string, comment: Option<string>) returns (tail: string)
    requires front != [] && !IsSpace(front[|front| - 1])
    requires Spaces(pad2) && Trimmed(value) && NoComment(value) && Spaces(pad3) && NUL !in value
    requires comment.Some? ==> value != [] && pad3 != []
    ensures TrimRight(front + pad2 + value + pad3 + Comment(comment) + ['\n']) == front + tail
    ensures Value(tail) == value
    ensures '=' !in value ==> NoEquals(tail)
  {
    hide Value, TrimRight, NoComment;
    if comment.None? {
      tail := if value == [] then [] else pad2 + value;
      StripPair(front, pad2, value, pad3);
      ReadValue(pad2, value);
      assert front + pad2 + value + pad3 + [] == front + pad2 + value + pad3;
      if '=' !in value {
        assert NoEqualsTo(tail, |tail|);
      }
    } else {
      var shown := pad2 + value + pad3;
      var x, y := front + shown + [';'], comment.value + ['\n'];
      assert front + pad2 + value + pad3 + Comment(comment) + ['\n'] == x + y;
      var rest := StripBehind(x, y);
      tail := shown + [';'] + rest;
      assert x + rest == front + tail;
      ReadCommented(pad2, value, pad3, rest);
      if '=' !in value {
        assert tail[|shown| - 1] == pad3[|pad3| - 1] && tail[|shown|] == ';';
        assert NoEqualsTo(tail, |shown|);
      }
    }
  }

  lemma ReadPair(item: Item, c: Carry)
    requires Printable(item, c.prevName) && item.Pair?
    ensures ReadingOf(Body(item) + ['\n'], c) ==
            Effect(c.(prevName := Cut(item.name, 49)), Some(Triple(c.section, item.name, item.value)), false)
  {
    NulFree(item);
    var front := item.name + item.pad1 + [item.sep];
    hide ReadingOf, PairEffect, Value, TrimRight, NoComment, Spaces, NoEquals;
    var tail := StripTail(front, item.pad2, item.value, item.pad3, item.comment);
    Ends(item.name, item.pad1, item.sep, tail);
    ReadKey(item.name, item.pad1, item.sep, tail, c);
    PlainLine(Body(item) + ['\n'], front + tail, c);
  }

  lemma Ends(name: string, pad: string, sep: char, rest: string)
    requires name != []
    ensures var front := name + pad + [sep]; (front + rest)[0] == name[0] && front[|front| - 1] == sep
  {
  }

  lemma NulFree(item: Item)
    requires Clean(Body(item)) && item.Pair?
    ensures NUL !in item.value
  {
    var b, n := Body(item), |item.name + item.pad1 + [item.sep] + item.pad2|;
    forall k | 0 <= k < |item.value|
      ensures item.value[k] != NUL
    {
      assert b[n + k] == item.value[k];
    }
  }

  /** `fgets` returns a printed line whole. */
  lemma {:induction false} LineEndAt(text: string, i: nat, n: nat)
    requires i <= n < |text| && n < LINE_ROOM && text[n] == '\n' && forall k :: i <= k < n ==> text[k] != '\n'
    ensures LineEnd(text, i) == n + 1
    decreases n - i
  {
    if i < n {
      LineEndAt(text, i + 1, n);
    }
  }

  /** The effect a line is meant to have. */
  ghost function Meant(item: Item, c: Carry): Effect {
    match item
    case Section(name, _) => Effect(Carry(Cut(name, 49), []), None, false)
    case Pair(name, _, _, _, value, _, _) =>
      Effect(c.(prevName := Cut(name, 49)), Some(Triple(c.section, name, value)), false)
    case More(_, text) => Effect(c, Some(Triple(c.section, c.prevName, text)), false)
    case Bad(_) => Effect(c, None, true)
    case _ => Effect(c, None, false)
  }

  lemma ReadItem(item: Item, c: Carry, more: string)
    requires Printable(item, c.prevName)
    ensures var text := Body(item) + ['\n'] + more;
      var n := LineEnd(text, 0);
      n == |Body(item)| + 1 && text[n..] == more && ReadingOf(UpToNul(text[..n]), c) == Meant(item, c)
  {
    var b := Body(item);
    var line := b + ['\n'];
    var text := line + more;
    LineEndAt(text, 0, |b|);
    assert text[..|line|] == line && line[..|line|] == line;
    NulEnds(line, |line|);
    hide ReadingOf, LineEnd, UpToNul;
    match item
    case Section(name, after) => ReadSection(name, after, c);
    case Pair(_, _, _, _, _, _, _) => ReadPair(item, c);
    case More(indent, text) => ReadMore(indent, text, c);
    case Bad(text) => ReadBad(text, c);
    case _ => ReadRemark(item, c);
  }

  lemma {:induction false} ParsePrinted(items: seq<Item>, lineno: nat, c: Carry, so: Outcome, ok: nat -> bool)
    requires AllPrintable(items, c.prevName)
    ensures Parse(Print(items), lineno, c, so, ok) ==
            Outcome(so.calls + Triples(items, c.section, c.prevName),
                    if so.error != 0 then so.error else FirstFault(items, lineno, |so.calls|, ok))
    decreases |items|
  {
    hide ReadingOf, LineEnd, UpToNul, Body, Printable;
    if items == [] {
      assert so.calls + [] == so.calls;
    } else {
      var item, more, text := items[0], items[1..], Print(items);
      ReadItem(item, c, Print(more));
      var e := Meant(item, c);
      var next := After(so, e, lineno + 1, ok);
      var n := LineEnd(text, 0);
      assert text != [] && text[n..] == Print(more) && ReadingOf(UpToNul(text[..n]), c) == e;
      assert Parse(text, lineno, c, so, ok) == Parse(Print(more), lineno + 1, e.carry, next, ok);
      ItemsStep(items, c, so, lineno, ok);
      hide Parse, Print, Triples, FirstFault, After, Meant, AllPrintable;
      ParsePrinted(more, lineno + 1, e.carry, next, ok);
    }
  }

  /** What one item adds to the calls and to the first fault. */
  lemma ItemsStep(items: seq<Item>, c: Carry, so: Outcome, lineno: nat, ok: nat -> bool)
    requires items != [] && AllPrintable(items, c.prevName)
    ensures var e := Meant(items[0], c);
      var next := After(so, e, lineno + 1, ok);
      var more := items[1..];
      && AllPrintable(more, e.carry.prevName)
      && so.calls + Triples(items, c.section, c.prevName) == next.calls + Triples(more, e.carry.section, e.carry.prevName)
      && (if so.error != 0 then so.error else FirstFault(items, lineno, |so.calls|, ok)) ==
         (if next.error != 0 then next.error else FirstFault(more, lineno + 1, |next.calls|, ok))
  {
    hide Printable, Body;
    var e := Meant(items[0], c);
    if e.call.Some? {
      Assoc(so.calls, [e.call.value], Triples(items[1..], e.carry.section, e.carry.prevName));
    }
  }

  /** Round trip: a printed file is read back as exactly its name/value pairs, each with the
      section it stands in, in order, whatever the padding, the separator, and the comments
      behind pairs and in between; continuation lines come as values of the last name. What is
      returned is the number of the first malformed line or refused call, or 0. */
  lemma ParseOfPrint(items: seq<Item>, ok: nat -> bool)
    requires AllPrintable(items, [])
    ensures Parse(Print(items), 0, Carry([], []), Outcome([], 0), ok) ==
            Outcome(Triples(items, [], []), FirstFault(items, 0, 0, ok))
  {
    ParsePrinted(items, 0, Carry([], []), Outcome([], 0), ok);
    assert [] + Triples(items, [], []) == Triples(items, [], []);
  }
}
