/** The per-zone status list of a flavor: `zone(status)` entries with loose punctuation. */
module CondOperationAZ {
  import opened Base

  const FULL_COMMA := '\U{FF0C}'
  const FULL_SEMICOLON := '\U{FF1B}'
  const FULL_OPEN := '\U{FF08}'
  const FULL_CLOSE := '\U{FF09}'

  function NormalizeChar(c: char): char {
    if c == FULL_COMMA || c == FULL_SEMICOLON || c == ';' then ','
    else if c == FULL_OPEN then '('
    else if c == FULL_CLOSE then ')'
    else c
  }

  function Normalize(s: string): string {
    seq(|s|, i requires 0 <= i < |s| => NormalizeChar(s[i]))
  }

  /** Unicode white space. */
  predicate IsSpace(c: char) {
    || c == ' ' || '\U{9}' <= c <= '\U{D}' || c == '\U{85}' || c == '\U{A0}' || c == '\U{1680}'
    || '\U{2000}' <= c <= '\U{200A}' || c == '\U{2028}' || c == '\U{2029}' || c == '\U{202F}'
    || c == '\U{205F}' || c == '\U{3000}'
  }

  function TrimLeft(s: string): string {
    if s != "" && IsSpace(s[0]) then TrimLeft(s[1..]) else s
  }

  function TrimRight(s: string): string {
    if s != "" && IsSpace(s[|s| - 1]) then TrimRight(s[..|s| - 1]) else s
  }

  function TrimSpace(s: string): string {
    TrimRight(TrimLeft(s))
  }

  /** First position of `c`, |s| when absent. */
  function Index(s: string, c: char): (i: nat)
    ensures i <= |s|
  {
    if s == "" || s[0] == c then 0 else 1 + Index(s[1..], c)
  }

  /** Last position of `c`, -1 when absent. */
  function LastIndex(s: string, c: char): (i: int)
    ensures -1 <= i < |s|
  {
    if s == "" then -1 else if s[|s| - 1] == c then |s| - 1 else LastIndex(s[..|s| - 1], c)
  }

  function Split(s: string): seq<string> {
    var i := Index(s, ',');
    if i == |s| then [s] else [s[..i]] + Split(s[i + 1..])
  }

  /** One part of the list; `None` when it names no zone. */
  function ParsePart(raw: string): Option<(string, string)> {
    var part := TrimSpace(raw);
    if part == "" then None else
    var open, close := Index(part, '('), LastIndex(part, ')');
    if open < |part| && open < close then
      var zone := TrimSpace(part[..open]);
      if zone == "" then None else Some((zone, TrimSpace(part[open + 1..close])))
    else Some((part, ""))
  }

  function Put(out: map<string, string>, entry: Option<(string, string)>): map<string, string> {
    if entry.None? then out else out[entry.value.0 := entry.value.1]
  }

  function PutAll(out: map<string, string>, parts: seq<string>): map<string, string>
    decreases |parts|
  {
    if parts == [] then out else PutAll(Put(out, ParsePart(parts[0])), parts[1..])
  }

  function Overrides(s: string): map<string, string> {
    PutAll(map[], Split(Normalize(s)))
  }

  method ParseCondOperationAZ(s: string) returns (out: map<string, string>)
    ensures out == Overrides(s)
  {
    var parts := Split(Normalize(s));
    out := map[];
    for i := 0 to |parts|
      invariant PutAll(out, parts[i..]) == PutAll(map[], parts)
    {
      assert parts[i..][0] == parts[i] && parts[i..][1..] == parts[i + 1..];
      var part := TrimSpace(parts[i]);
      if part == "" {
        continue;
      }
      var zone, status := part, "";
      var open := Index(part, '(');
      if open < |part| {
        var close := LastIndex(part, ')');
        if close > open {
          zone, status := TrimSpace(part[..open]), TrimSpace(part[open + 1..close]);
        }
      }
      if zone == "" {
        continue;
      }
      out := out[zone := status];
    }
  }

  // ---------- printing ----------

  /** One printed entry: its text, the brackets used (none for a bare zone) and the white space
      around each piece. */
  datatype Printed =
    | Bare(before: string, zone: string, after: string)
    | Bracketed(before: string, zone: string, gap: string, open: char, inner: string, status: string, outer: string,
                close: char, after: string)

  function StatusOf(p: Printed): string {
    if p.Bare? then "" else p.status
  }

  function Render(p: Printed): string {
    match p
    case Bare(before, zone, after) => before + (zone + after)
    case Bracketed(before, zone, gap, open, inner, status, outer, close, after) =>
      before + ((zone + gap + [open] + (inner + (status + outer)) + [close]) + after)
  }

  function Print(ps: seq<Printed>, seps: seq<char>): string
    requires |ps| == |seps| + 1
  {
    if |ps| == 1 then Render(ps[0]) else Render(ps[0]) + [seps[0]] + Print(ps[1..], seps[1..])
  }

  predicate Plain(c: char) {
    c !in {',', ';', FULL_COMMA, FULL_SEMICOLON, '(', ')', FULL_OPEN, FULL_CLOSE}
  }

  predicate IsSeparator(c: char) {
    c == ',' || c == ';' || c == FULL_COMMA || c == FULL_SEMICOLON
  }

  predicate Clean(s: string) {
    && (forall i :: 0 <= i < |s| ==> Plain(s[i]))
    && (s != "" ==> !IsSpace(s[0]) && !IsSpace(s[|s| - 1]))
  }

  predicate Blank(s: string) {
    forall i :: 0 <= i < |s| ==> IsSpace(s[i])
  }

  predicate WellPrinted(p: Printed) {
    && Clean(p.zone) && p.zone != "" && Blank(p.before) && Blank(p.after)
    && (p.Bracketed? ==>
          && Blank(p.gap) && Blank(p.inner) && Blank(p.outer) && Clean(p.status)
          && p.open in {'(', FULL_OPEN} && p.close in {')', FULL_CLOSE})
  }

  /** Later entries for a zone replace earlier ones. */
  function LastWins(out: map<string, string>, ps: seq<Printed>): map<string, string>
    decreases |ps|
  {
    if ps == [] then out else LastWins(out[ps[0].zone := StatusOf(ps[0])], ps[1..])
  }

  // ---------- parsing inverts printing ----------

  lemma NormalizeConcat(a: string, b: string)
    ensures Normalize(a + b) == Normalize(a) + Normalize(b)
  {
  }

  lemma NormalizeFixed(s: string)
    requires Blank(s) || Clean(s)
    ensures Normalize(s) == s
  {
  }

  lemma {:induction false} TrimLeftBlank(b: string, s: string)
    requires Blank(b) && (s != "" ==> !IsSpace(s[0]))
    ensures TrimLeft(b + s) == s
  {
    if b != "" {
      assert (b + s)[1..] == b[1..] + s;
      TrimLeftBlank(b[1..], s);
    } else {
      assert b + s == s;
    }
  }

  lemma {:induction false} TrimRightBlank(s: string, b: string)
    requires Blank(b) && (s != "" ==> !IsSpace(s[|s| - 1]))
    ensures TrimRight(s + b) == s
  {
    if b != "" {
      assert (s + b)[..|s + b| - 1] == s + b[..|b| - 1];
      TrimRightBlank(s, b[..|b| - 1]);
    } else {
      assert s + b == s;
    }
  }

  lemma TrimPadded(b: string, s: string, a: string)
    requires Blank(b) && Blank(a) && s != "" && !IsSpace(s[0]) && !IsSpace(s[|s| - 1])
    ensures TrimSpace(b + (s + a)) == s
  {
    assert (s + a)[0] == s[0];
    TrimLeftBlank(b, s + a);
    TrimRightBlank(s, a);
  }

  lemma {:induction false} TrimLeftSplits(s: string) returns (b: string)
    ensures Blank(b) && s == b + TrimLeft(s)
  {
    if s != "" && IsSpace(s[0]) {
      var rest := TrimLeftSplits(s[1..]);
      b := [s[0]] + rest;
    } else {
      b := "";
    }
  }

  lemma {:induction false} TrimRightSplits(s: string) returns (b: string)
    ensures Blank(b) && s == TrimRight(s) + b
  {
    if s != "" && IsSpace(s[|s| - 1]) {
      var rest := TrimRightSplits(s[..|s| - 1]);
      b := rest + [s[|s| - 1]];
    } else {
      b := "";
    }
  }

  /** Trimming takes white space off both ends and nothing else. */
  lemma TrimSplits(s: string) returns (before: string, after: string)
    ensures Blank(before) && Blank(after) && s == before + TrimSpace(s) + after
  {
    before := TrimLeftSplits(s);
    after := TrimRightSplits(TrimLeft(s));
  }

  lemma {:induction false} TrimAllBlank(b: string)
    requires Blank(b)
    ensures TrimLeft(b) == ""
  {
    if b != "" {
      TrimAllBlank(b[1..]);
    }
  }

  lemma TrimPaddedClean(b: string, s: string, a: string)
    requires Blank(b) && Blank(a) && Clean(s)
    ensures TrimSpace(b + (s + a)) == s
  {
    if s == "" {
      assert b + (s + a) == b + a;
      TrimAllBlank(b + a);
    } else {
      TrimPadded(b, s, a);
    }
  }

  lemma {:induction false} IndexAfter(a: string, c: char, b: string)
    requires c !in a
    ensures Index(a + [c] + b, c) == |a|
  {
    var s := a + [c] + b;
    if a != "" {
      assert s[0] == a[0] && s[1..] == a[1..] + [c] + b;
      IndexAfter(a[1..], c, b);
    }
  }

  lemma {:induction false} IndexAbsent(a: string, c: char)
    requires c !in a
    ensures Index(a, c) == |a| && LastIndex(a, c) == -1
  {
    if a != "" {
      IndexAbsent(a[1..], c);
      LastIndexAbsent(a, c);
    }
  }

  lemma {:induction false} LastIndexAbsent(a: string, c: char)
    requires c !in a
    ensures LastIndex(a, c) == -1
  {
    if a != "" {
      LastIndexAbsent(a[..|a| - 1], c);
    }
  }

  lemma NoComma(s: string)
    requires Blank(s) || Clean(s)
    ensures ',' !in s && '(' !in s
  {
  }

  // ---------- any part at all ----------

  lemma {:induction false} IndexMeaning(s: string, c: char)
    ensures c !in s[..Index(s, c)]
    ensures Index(s, c) < |s| ==> s[Index(s, c)] == c
  {
    if s != "" && s[0] != c {
      IndexMeaning(s[1..], c);
      assert s[..Index(s, c)] == [s[0]] + s[1..][..Index(s[1..], c)];
    }
  }

  lemma {:induction false} LastIndexMeaning(s: string, c: char)
    ensures LastIndex(s, c) < 0 ==> c !in s
    ensures 0 <= LastIndex(s, c) ==> s[LastIndex(s, c)] == c && c !in s[LastIndex(s, c) + 1..]
  {
    if s != "" && s[|s| - 1] != c {
      var front := s[..|s| - 1];
      LastIndexMeaning(front, c);
      assert s == front + [s[|s| - 1]];
      if 0 <= LastIndex(front, c) {
        assert s[LastIndex(s, c) + 1..] == front[LastIndex(s, c) + 1..] + [s[|s| - 1]];
      }
    }
  }

  /** The brackets of a part: the first opening one and the last closing one, if in this order. */
  ghost predicate SplitsAs(part: string, head: string, body: string, tail: string) {
    part == head + ['('] + (body + [')'] + tail) && '(' !in head && ')' !in tail
  }

  /** Every part, well printed or not: blank ones name no zone; a part without brackets in order names itself,
      without status; else the zone is what stands before them, if anything, and the status what they hold. */
  lemma PartMeaning(raw: string, before: string, part: string, after: string)
    requires Blank(before) && Blank(after) && raw == before + (part + after)
    requires part != "" ==> !IsSpace(part[0]) && !IsSpace(part[|part| - 1])
    ensures part == "" ==> ParsePart(raw) == None
    ensures part != "" && (forall head, body, tail :: !SplitsAs(part, head, body, tail)) ==>
              ParsePart(raw) == Some((part, ""))
    ensures forall head, body, tail :: SplitsAs(part, head, body, tail) ==>
              ParsePart(raw) == if TrimSpace(head) == "" then None else Some((TrimSpace(head), TrimSpace(body)))
  {
    if part == "" {
      TrimAllBlank(raw);
    } else {
      TrimPadded(before, part, after);
      if forall head, body, tail :: !SplitsAs(part, head, body, tail) {
        UnsplitPart(raw);
      }
      forall head, body, tail | SplitsAs(part, head, body, tail)
        ensures ParsePart(raw) == if TrimSpace(head) == "" then None else Some((TrimSpace(head), TrimSpace(body)))
      {
        SplitsOnce(part, head, body, tail);
      }
    }
  }

  lemma CutTwice(s: string, i: nat, j: nat)
    requires i < j < |s|
    ensures s == s[..i] + [s[i]] + (s[i + 1..j] + [s[j]] + s[j + 1..])
  {
  }

  lemma UnsplitPart(raw: string)
    requires TrimSpace(raw) != "" && forall head, body, tail :: !SplitsAs(TrimSpace(raw), head, body, tail)
    ensures ParsePart(raw) == Some((TrimSpace(raw), ""))
  {
    var part := TrimSpace(raw);
    var open, close := Index(part, '('), LastIndex(part, ')');
    IndexMeaning(part, '(');
    LastIndexMeaning(part, ')');
    if open < |part| && open < close {
      var head, body, tail := part[..open], part[open + 1..close], part[close + 1..];
      CutTwice(part, open, close);
      assert SplitsAs(part, head, body, tail);
    }
  }

  lemma LastIndexUnique(s: string, c: char, i: nat)
    requires i < |s| && s[i] == c && c !in s[i + 1..]
    ensures LastIndex(s, c) == i
  {
    LastIndexMeaning(s, c);
  }

  lemma SplitsOnce(part: string, head: string, body: string, tail: string)
    requires SplitsAs(part, head, body, tail)
    ensures Index(part, '(') == |head| && LastIndex(part, ')') == |head| + 1 + |body|
    ensures part[..|head|] == head && part[|head| + 1..|head| + 1 + |body|] == body
  {
    IndexAfter(head, '(', body + [')'] + tail);
    LastIndexMeaning(part, ')');
    var close := |head| + 1 + |body|;
    assert part[close] == ')' && part[close + 1..] == tail;
    LastIndexUnique(part, ')', close);
  }

  /** A printed entry, normalized, parses to its zone and status. */
  lemma PartParsesBack(p: Printed)
    requires WellPrinted(p)
    ensures ParsePart(Normalize(Render(p))) == Some((p.zone, StatusOf(p)))
    ensures ',' !in Normalize(Render(p))
  {
    if p.Bare? {
      BareParsesBack(p);
    } else {
      BracketedParsesBack(p);
    }
  }

  lemma BareParsesBack(p: Printed)
    requires WellPrinted(p) && p.Bare?
    ensures ParsePart(Normalize(Render(p))) == Some((p.zone, ""))
    ensures ',' !in Normalize(Render(p))
  {
    NormalizeConcat(p.before, p.zone + p.after);
    NormalizeConcat(p.zone, p.after);
    NormalizeFixed(p.before);
    NormalizeFixed(p.zone);
    NormalizeFixed(p.after);
    NoComma(p.before); NoComma(p.zone); NoComma(p.after);
    TrimPadded(p.before, p.zone, p.after);
    IndexAbsent(p.zone, '(');
  }

  /** The zone-and-bracket core of an entry, already trimmed. */
  function Core(p: Printed): string
    requires p.Bracketed?
  {
    p.zone + p.gap + ['('] + (p.inner + (p.status + p.outer)) + [')']
  }

  lemma CoreParses(p: Printed)
    requires WellPrinted(p) && p.Bracketed?
    ensures var core := Core(p);
            && core[0] == p.zone[0] && core[|core| - 1] == ')'
            && Index(core, '(') < LastIndex(core, ')')
            && TrimSpace(core[..Index(core, '(')]) == p.zone
            && TrimSpace(core[Index(core, '(') + 1..LastIndex(core, ')')]) == p.status
  {
    var head, body, core := p.zone + p.gap, p.inner + (p.status + p.outer), Core(p);
    NoComma(p.zone); NoComma(p.gap);
    assert core == head + ['('] + (body + [')']);
    IndexAfter(head, '(', body + [')']);
    assert core[..|head|] == head == "" + (p.zone + p.gap);
    assert core[|head| + 1..|core| - 1] == body;
    TrimPadded("", p.zone, p.gap);
    TrimPaddedClean(p.inner, p.status, p.outer);
  }

  lemma BracketedHasNoComma(p: Printed)
    requires WellPrinted(p) && p.Bracketed?
    ensures ',' !in p.before + (Core(p) + p.after)
  {
  }

  lemma {:induction false} BracketedParsesBack(p: Printed)
    requires WellPrinted(p) && p.Bracketed?
    ensures ParsePart(Normalize(Render(p))) == Some((p.zone, p.status))
    ensures ',' !in Normalize(Render(p))
  {
    NormalizeBracketed(p);
    BracketedHasNoComma(p);
    var core := Core(p);
    CoreParses(p);
    TrimPadded(p.before, core, p.after);
    assert TrimSpace(Normalize(Render(p))) == core;
  }

  lemma NormalizeBracketed(p: Printed)
    requires WellPrinted(p) && p.Bracketed?
    ensures Normalize(Render(p)) ==
              p.before + ((p.zone + p.gap + ['('] + (p.inner + (p.status + p.outer)) + [')']) + p.after)
  {
  }

  lemma SplitFirst(a: string, b: string)
    requires ',' !in a
    ensures Split(a + [','] + b) == [a] + Split(b)
  {
    var s := a + [','] + b;
    IndexAfter(a, ',', b);
    assert s[..|a|] == a && s[|a| + 1..] == b;
  }

  lemma OneParsesBack(out: map<string, string>, p: Printed)
    requires WellPrinted(p)
    ensures PutAll(out, Split(Normalize(Render(p)))) == out[p.zone := StatusOf(p)]
  {
    var part := Normalize(Render(p));
    PartParsesBack(p);
    IndexAbsent(part, ',');
    assert Split(part) == [part] + [];
    PutFirst(out, part, [], p);
  }

  lemma {:induction false} ListParsesBack(out: map<string, string>, ps: seq<Printed>, seps: seq<char>)
    requires |ps| == |seps| + 1
    requires forall p :: p in ps ==> WellPrinted(p)
    requires forall c :: c in seps ==> IsSeparator(c)
    ensures PutAll(out, Split(Normalize(Print(ps, seps)))) == LastWins(out, ps)
    decreases |ps|
  {
    var out' := out[ps[0].zone := StatusOf(ps[0])];
    if |ps| == 1 {
      OneParsesBack(out, ps[0]);
      assert LastWins(out, ps) == LastWins(out', []) by { assert ps[1..] == []; }
    } else {
      PartParsesBack(ps[0]);
      assert seps[0] in seps;
      PrintSplits(ps, seps);
      PutFirst(out, Normalize(Render(ps[0])), Split(Normalize(Print(ps[1..], seps[1..]))), ps[0]);
      ListParsesBack(out', ps[1..], seps[1..]);
    }
  }

  lemma PutFirst(out: map<string, string>, first: string, tail: seq<string>, p: Printed)
    requires ParsePart(first) == Some((p.zone, StatusOf(p)))
    ensures PutAll(out, [first] + tail) == PutAll(out[p.zone := StatusOf(p)], tail)
  {
  }

  lemma {:induction false} PrintSplits(ps: seq<Printed>, seps: seq<char>)
    requires |ps| == |seps| + 1 && 2 <= |ps| && WellPrinted(ps[0])
    requires IsSeparator(seps[0])
    ensures Split(Normalize(Print(ps, seps)))
         == [Normalize(Render(ps[0]))] + Split(Normalize(Print(ps[1..], seps[1..])))
  {
    PartParsesBack(ps[0]);
    SeparatorSplits(Render(ps[0]), seps[0], Print(ps[1..], seps[1..]));
  }

  lemma SeparatorSplits(first: string, sep: char, rest: string)
    requires ',' !in Normalize(first) && IsSeparator(sep)
    ensures Split(Normalize(first + [sep] + rest)) == [Normalize(first)] + Split(Normalize(rest))
  {
    NormalizeConcat(first, [sep]);
    NormalizeConcat(first + [sep], rest);
    assert Normalize([sep]) == [','];
    SplitFirst(Normalize(first), Normalize(rest));
  }

  /** Any list of clean entries, with any mix of separators, bracket widths and white space, parses
      to the map in which the last entry of each zone wins. */
  lemma {:induction false} ParseInvertsPrint(ps: seq<Printed>, seps: seq<char>)
    requires |ps| == |seps| + 1
    requires forall p :: p in ps ==> WellPrinted(p)
    requires forall c :: c in seps ==> IsSeparator(c)
    ensures Overrides(Print(ps, seps)) == LastWins(map[], ps)
  {
    ListParsesBack(map[], ps, seps);
  }

  /** What `LastWins` means: a zone is present when some entry names it, with the last one's status. */
  lemma {:induction false} LastWinsMeaning(out: map<string, string>, ps: seq<Printed>, zone: string)
    ensures zone in LastWins(out, ps) <==> zone in out || exists i :: 0 <= i < |ps| && ps[i].zone == zone
    ensures forall i :: 0 <= i < |ps| && ps[i].zone == zone && (forall j :: i < j < |ps| ==> ps[j].zone != zone) ==>
              LastWins(out, ps)[zone] == StatusOf(ps[i])
    ensures zone in out && (forall i :: 0 <= i < |ps| ==> ps[i].zone != zone) ==> LastWins(out, ps)[zone] == out[zone]
    decreases |ps|
  {
    if ps != [] {
      var out', rest := out[ps[0].zone := StatusOf(ps[0])], ps[1..];
      LastWinsMeaning(out', rest, zone);
      forall i | 0 <= i < |ps| && ps[i].zone == zone ensures i == 0 || rest[i - 1] == ps[i] {
      }
      forall i | 0 <= i < |rest| ensures rest[i] == ps[i + 1] {
      }
      if i :| 0 <= i < |ps| && ps[i].zone == zone {
        assert i > 0 ==> rest[i - 1].zone == zone;
      }
    }
  }
}
