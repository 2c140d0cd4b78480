/** The in-place tokenizer of lib/util_str.c.

    The specification works on the characters before the terminating NUL and yields the start and
    the end of every field; the program overwrites the byte at each end with NUL.
 */
module StrExplode {
  import opened Bytes

  // A table of 256 flags; the NUL never separates, or the scans would leave the line.
  ghost predicate IsTable(t: seq<bool>)
  {
    |t| == 256 && !t[0]
  }

  predicate IsQuote(c: byte) { c == 34 || c == 39 }

  datatype Field = Field(start: nat, end: nat, quoted: bool)

  function SkipSeparators(t: seq<bool>, s: seq<byte>, p: nat): (q: nat)
    requires |t| == 256 && p <= |s|
    ensures p <= q <= |s|
    ensures forall j :: p <= j < q ==> t[s[j]]
    ensures q < |s| ==> !t[s[q]]
    decreases |s| - p
  {
    if p < |s| && t[s[p]] then SkipSeparators(t, s, p + 1) else p
  }

  function NextSeparator(t: seq<bool>, s: seq<byte>, p: nat): (q: nat)
    requires |t| == 256 && p <= |s|
    ensures p <= q <= |s|
    ensures forall j :: p <= j < q ==> !t[s[j]]
    ensures q < |s| ==> t[s[q]]
    decreases |s| - p
  {
    if p < |s| && !t[s[p]] then NextSeparator(t, s, p + 1) else p
  }

  function NextByte(s: seq<byte>, p: nat, c: byte): (q: nat)
    requires p <= |s|
    ensures p <= q <= |s|
    ensures forall j :: p <= j < q ==> s[j] != c
    ensures q < |s| ==> s[q] == c
    decreases |s| - p
  {
    if p < |s| && s[p] != c then NextByte(s, p + 1, c) else p
  }

  // Where s ends when trailing separators after position p are left out.
  function TrimmedEnd(t: seq<bool>, s: seq<byte>, p: nat): (e: nat)
    requires |t| == 256 && p < |s| && !t[s[p]]
    ensures p < e <= |s| && !t[s[e - 1]]
    ensures forall j :: e <= j < |s| ==> t[s[j]]
  {
    TrimFrom(t, s, p, |s|)
  }

  function TrimFrom(t: seq<bool>, s: seq<byte>, p: nat, e: nat): (r: nat)
    requires |t| == 256 && p < e <= |s| && !t[s[p]]
    ensures p < r <= e && !t[s[r - 1]]
    ensures forall j :: r <= j < e ==> t[s[j]]
  {
    if t[s[e - 1]] then TrimFrom(t, s, p, e - 1) else e
  }

  // A quoted field runs from an opening quote to the next such quote or the end; the n-th field, if
  // unquoted, is the rest without trailing separators; any other field holds no separator and ends
  // at one or at the end.
  ghost predicate WellCut(t: seq<bool>, s: seq<byte>, f: Field, last: bool)
    requires |t| == 256
  {
    f.start <= f.end <= |s| &&
    if f.quoted then
      && f.start > 0 && IsQuote(s[f.start - 1])
      && (forall j :: f.start <= j < f.end ==> s[j] != s[f.start - 1])
      && (f.end < |s| ==> s[f.end] == s[f.start - 1])
    else
      && f.start < f.end && !t[s[f.start]] && !IsQuote(s[f.start])
      && if last then !t[s[f.end - 1]] && forall j :: f.end <= j < |s| ==> t[s[j]]
         else (forall j :: f.start <= j < f.end ==> !t[s[j]]) && (f.end < |s| ==> t[s[f.end]])
  }

  // The field that begins at q, which is no separator; `last` when it is the n-th.
  function FieldAt(t: seq<bool>, s: seq<byte>, q: nat, last: bool): (f: Field)
    requires |t| == 256 && q < |s| && !t[s[q]]
    ensures q <= f.start <= f.end <= |s| && f.start <= q + 1
  {
    if IsQuote(s[q]) then Field(q + 1, NextByte(s, q + 1, s[q]), true)
    else if last then Field(q, TrimmedEnd(t, s, q), false)
    else Field(q, NextSeparator(t, s, q), false)
  }

  // At most n fields of s from position p on.
  function Fields(t: seq<bool>, s: seq<byte>, p: nat, n: nat): seq<Field>
    requires |t| == 256 && p <= |s|
    decreases |s| - p
  {
    var q := SkipSeparators(t, s, p);
    if q == |s| || n == 0 then []
    else
      var f := FieldAt(t, s, q, n == 1);
      [f] + if f.end == |s| || n == 1 then [] else Fields(t, s, f.end + 1, n - 1)
  }

  lemma FieldsAre(t: seq<bool>, s: seq<byte>, p: nat, n: nat)
    requires |t| == 256 && p <= |s|
    ensures var q := SkipSeparators(t, s, p);
            if q == |s| || n == 0 then Fields(t, s, p, n) == []
            else var f := FieldAt(t, s, q, n == 1);
                 Fields(t, s, p, n) == [f] + if f.end == |s| || n == 1 then [] else Fields(t, s, f.end + 1, n - 1)
  {
    hide SkipSeparators, FieldAt;
  }

  ghost predicate InOrder(r: seq<Field>, p: nat, size: nat)
  {
    && (forall k :: 0 <= k < |r| ==> p <= r[k].start <= r[k].end <= size)
    && (forall k :: 0 <= k < |r| - 1 ==> r[k].end < r[k + 1].start)
  }

  lemma InOrderCons(f: Field, r: seq<Field>, p: nat, size: nat)
    requires p <= f.start <= f.end <= size && (r == [] || (f.end < size && InOrder(r, f.end + 1, size)))
    ensures InOrder([f] + r, p, size)
  {
    assert forall k :: 0 < k < |r| + 1 ==> ([f] + r)[k] == r[k - 1];
  }

  // Fields are in order and apart, and there are at most n.
  lemma {:induction false} FieldsInOrder(t: seq<bool>, s: seq<byte>, p: nat, n: nat)
    requires |t| == 256 && p <= |s|
    ensures InOrder(Fields(t, s, p, n), p, |s|) && |Fields(t, s, p, n)| <= n
    decreases |s| - p
  {
    hide SkipSeparators, FieldAt, InOrder, Fields;
    FieldsAre(t, s, p, n);
    var q := SkipSeparators(t, s, p);
    NoFields(p, |s|);
    if q < |s| && n > 0 {
      var f := FieldAt(t, s, q, n == 1);
      if f.end < |s| && n > 1 {
        FieldsInOrder(t, s, f.end + 1, n - 1);
        InOrderCons(f, Fields(t, s, f.end + 1, n - 1), p, |s|);
      } else {
        InOrderCons(f, [], p, |s|);
      }
    }
  }

  lemma NoFields(p: nat, size: nat)
    ensures InOrder([], p, size)
  {
  }

  lemma FieldIsWellCut(t: seq<bool>, s: seq<byte>, q: nat, last: bool)
    requires |t| == 256 && q < |s| && !t[s[q]]
    ensures WellCut(t, s, FieldAt(t, s, q, last), last)
  {
    hide NextByte, TrimmedEnd, NextSeparator;
  }

  lemma {:induction false} FieldsAreWellCut(t: seq<bool>, s: seq<byte>, p: nat, n: nat)
    requires |t| == 256 && p <= |s|
    ensures forall k :: 0 <= k < |Fields(t, s, p, n)| ==> WellCut(t, s, Fields(t, s, p, n)[k], k == n - 1)
    decreases |s| - p
  {
    hide SkipSeparators, FieldAt, WellCut, Fields;
    FieldsAre(t, s, p, n);
    var q := SkipSeparators(t, s, p);
    if q < |s| && n > 0 {
      FieldIsWellCut(t, s, q, n == 1);
      var f := FieldAt(t, s, q, n == 1);
      if f.end < |s| && n > 1 {
        FieldsAreWellCut(t, s, f.end + 1, n - 1);
      }
    }
  }

  // Only separators lie between p and the field, or its opening quote.
  ghost predicate Gap(t: seq<bool>, s: seq<byte>, p: nat, f: Field)
    requires |t| == 256
  {
    forall j :: p <= j < |s| && j < (if f.quoted then f.start - 1 else f.start) ==> t[s[j]]
  }

  // Where the scan for the k-th field begins.
  function After(r: seq<Field>, p: nat, k: nat): nat
    requires k <= |r|
  {
    if k == 0 then p else r[k - 1].end + 1
  }

  ghost predicate OnlySeparators(t: seq<bool>, s: seq<byte>, p: nat)
    requires |t| == 256
  {
    forall j :: p <= j < |s| ==> t[s[j]]
  }

  ghost predicate Covered(t: seq<bool>, s: seq<byte>, p: nat, r: seq<Field>, n: nat)
    requires |t| == 256
  {
    && (forall k :: 0 <= k < |r| ==> Gap(t, s, After(r, p, k), r[k]))
    && (|r| < n ==> OnlySeparators(t, s, After(r, p, |r|)))
  }

  lemma CoveredCons(t: seq<bool>, s: seq<byte>, p: nat, f: Field, rest: seq<Field>, n: nat)
    requires |t| == 256 && n > 0 && Gap(t, s, p, f) && Covered(t, s, f.end + 1, rest, n - 1)
    ensures Covered(t, s, p, [f] + rest, n)
  {
    hide Gap, OnlySeparators;
    var r := [f] + rest;
    forall k | 0 < k <= |r| ensures After(r, p, k) == After(rest, f.end + 1, k - 1) {
      assert k > 1 ==> r[k - 1] == rest[k - 2];
    }
  }

  // Nothing but separators is left out before, between and, short of the n-th field, after fields.
  lemma {:induction false} NothingIsSkipped(t: seq<bool>, s: seq<byte>, p: nat, n: nat)
    requires |t| == 256 && p <= |s|
    ensures Covered(t, s, p, Fields(t, s, p, n), n)
    decreases |s| - p
  {
    hide SkipSeparators, FieldAt, Gap, OnlySeparators, Fields;
    FieldsAre(t, s, p, n);
    var q := SkipSeparators(t, s, p);
    if q == |s| {
      SkippedAll(t, s, p);
    } else if n > 0 {
      FirstGap(t, s, p, n == 1);
      var f := FieldAt(t, s, q, n == 1);
      AtTheEnd(t, s, f.end + 1);
      if f.end < |s| && n > 1 {
        NothingIsSkipped(t, s, f.end + 1, n - 1);
        CoveredCons(t, s, p, f, Fields(t, s, f.end + 1, n - 1), n);
      } else {
        CoveredCons(t, s, p, f, [], n);
      }
    }
  }

  lemma SkippedAll(t: seq<bool>, s: seq<byte>, p: nat)
    requires |t| == 256 && p <= |s| && SkipSeparators(t, s, p) == |s|
    ensures OnlySeparators(t, s, p)
  {
  }

  lemma AtTheEnd(t: seq<bool>, s: seq<byte>, p: nat)
    requires |t| == 256
    ensures p > |s| ==> OnlySeparators(t, s, p)
  {
  }

  lemma FirstGap(t: seq<bool>, s: seq<byte>, p: nat, last: bool)
    requires |t| == 256 && p <= |s| && SkipSeparators(t, s, p) < |s|
    ensures Gap(t, s, p, FieldAt(t, s, SkipSeparators(t, s, p), last))
  {
    hide NextByte, TrimmedEnd, NextSeparator;
  }

  /* ---------- the program ---------- */

  // build_ifs: a table from a NUL-terminated list of characters.
  method BuildIfs(ifs: seq<byte>) returns (tifs: array<bool>)
    requires forall i :: 0 <= i < |ifs| ==> ifs[i] != 0
    ensures fresh(tifs) && IsTable(tifs[..])
    ensures forall c: byte :: tifs[..][c] <==> c in ifs
  {
    tifs := new bool[256](_ => false);
    for i := 0 to |ifs|
      invariant tifs.Length == 256 && forall c: byte :: tifs[c] <==> c in ifs[..i]
    {
      assert ifs[..i + 1] == ifs[..i] + [ifs[i]];
      tifs[ifs[i]] := true;
    }
    assert ifs[..|ifs|] == ifs;
  }

  datatype Ifs = Blanks | Table(t: seq<bool>) | Characters(chars: seq<byte>)

  ghost predicate ValidIfs(ifs: Ifs)
  {
    && (ifs.Table? ==> IsTable(ifs.t))
    && (ifs.Characters? ==> forall i :: 0 <= i < |ifs.chars| ==> ifs.chars[i] != 0)
  }

  function Chosen(ifs: Ifs): (t: seq<bool>)
    requires ifs.Table? ==> |ifs.t| == 256
    ensures |t| == 256
  {
    match ifs
    case Blanks => seq(256, c => c == 9 || c == 10 || c == 13 || c == 32)
    case Table(t) => t
    case Characters(chars) => seq(256, c requires 0 <= c < 256 => c in chars)
  }

  // What the caller's choice means for one character.
  ghost predicate Separates(ifs: Ifs, c: byte)
    requires ifs.Table? ==> |ifs.t| == 256
  {
    match ifs
    case Blanks => c in {9, 10, 13, 32}
    case Table(t) => t[c]
    case Characters(chars) => c in chars
  }

  lemma ChosenIs(ifs: Ifs, c: byte)
    requires ifs.Table? ==> |ifs.t| == 256
    ensures Chosen(ifs)[c] <==> Separates(ifs, c)
  {
  }

  // The fields in terms of characters: a quoted one lies between two equal quotes, 34 or 39, or ends
  // with the line; any other begins with neither a quote nor a separator, and has no separator in it
  // unless it is the n-th. What precedes a field or its quote is separators.
  lemma FieldsByCharacter(ifs: Ifs, s: seq<byte>, n: nat, k: nat)
    requires ifs.Table? ==> |ifs.t| == 256
    requires k < |Fields(Chosen(ifs), s, 0, n)|
    ensures var r := Fields(Chosen(ifs), s, 0, n);
            var f := r[k];
            && f.end <= |s|
            && (f.quoted ==>
                  && 0 < f.start <= f.end && s[f.start - 1] in {34, 39}
                  && (forall j :: f.start <= j < f.end ==> s[j] != s[f.start - 1])
                  && (f.end < |s| ==> s[f.end] == s[f.start - 1]))
            && (!f.quoted ==> f.start < f.end && s[f.start] !in {34, 39})
            && (!f.quoted && k < n - 1 ==>
                  && (forall j :: f.start <= j < f.end ==> !Separates(ifs, s[j]))
                  && (f.end < |s| ==> Separates(ifs, s[f.end])))
            && (forall j :: After(r, 0, k) <= j < (if f.quoted then f.start - 1 else f.start) ==> Separates(ifs, s[j]))
  {
    var t := Chosen(ifs);
    var r := Fields(t, s, 0, n);
    FieldsAreWellCut(t, s, 0, n);
    NothingIsSkipped(t, s, 0, n);
    hide Fields, Chosen, Separates;
    assert WellCut(t, s, r[k], k == n - 1) && Gap(t, s, After(r, 0, k), r[k]);
    forall j | 0 <= j < |s| ensures t[s[j]] <==> Separates(ifs, s[j]) {
      ChosenIs(ifs, s[j]);
    }
  }

  // The NUL-terminated rest of the line from p on is that of s.
  ghost predicate Intact(line: seq<byte>, s: seq<byte>, p: nat)
  {
    && |line| > |s| && line[|s|] == 0
    && (forall j :: 0 <= j < |s| ==> s[j] != 0)
    && (forall j :: p <= j < |s| ==> line[j] == s[j])
  }

  method SkipWhileSeparator(t: seq<bool>, line: array<byte>, p: nat, ghost s: seq<byte>) returns (q: nat)
    requires IsTable(t) && p <= |s| && Intact(line[..], s, p)
    ensures q == SkipSeparators(t, s, p)
  {
    q := p;
    while t[line[q]]
      invariant p <= q <= |s| && SkipSeparators(t, s, q) == SkipSeparators(t, s, p)
      decreases |s| - q
    {
      q := q + 1;
    }
  }

  method SkipToSeparator(t: seq<bool>, line: array<byte>, p: nat, ghost s: seq<byte>) returns (q: nat)
    requires IsTable(t) && p <= |s| && Intact(line[..], s, p)
    ensures q == NextSeparator(t, s, p)
  {
    q := p;
    while line[q] != 0 && !t[line[q]]
      invariant p <= q <= |s| && NextSeparator(t, s, q) == NextSeparator(t, s, p)
      decreases |s| - q
    {
      q := q + 1;
    }
  }

  // strchr, with the index of the NUL for a null result.
  method Strchr(line: array<byte>, p: nat, c: byte, ghost s: seq<byte>) returns (q: nat)
    requires c != 0 && p <= |s| && Intact(line[..], s, p)
    ensures q == NextByte(s, p, c)
  {
    q := p;
    while line[q] != 0 && line[q] != c
      invariant p <= q <= |s| && NextByte(s, q, c) == NextByte(s, p, c)
      decreases |s| - q
    {
      q := q + 1;
    }
  }

  // line += strlen(line) - 1; while (ifs[*line]) line--;
  method LastKept(t: seq<bool>, line: array<byte>, p: nat, ghost s: seq<byte>) returns (q: nat)
    requires IsTable(t) && p < |s| && Intact(line[..], s, p) && !t[s[p]]
    ensures q + 1 == TrimmedEnd(t, s, p)
  {
    var strlen := 0;
    while line[p + strlen] != 0
      invariant p + strlen <= |s|
      decreases |s| - strlen
    {
      strlen := strlen + 1;
    }
    q := p + strlen - 1;
    while t[line[q]]
      invariant p <= q < |s| && TrimFrom(t, s, p, q + 1) == TrimmedEnd(t, s, p)
      decreases q
    {
      q := q - 1;
    }
  }

  // One turn of the loop: the next field, cut off in place. `last` when it is the n-th.
  method CutField(t: seq<bool>, line: array<byte>, p: nat, last: bool, ghost s: seq<byte>)
      returns (found: bool, start: nat, more: bool, p': nat)
    requires IsTable(t) && p <= |s| && Intact(line[..], s, p)
    modifies line
    ensures var q := SkipSeparators(t, s, p);
            && (found <==> q < |s|)
            && (!found ==> line[..] == old(line[..]))
            && (found ==>
                  var f := FieldAt(t, s, q, last);
                  && start == f.start
                  && line[..] == old(line[..])[f.end := 0]
                  && (more <==> f.end < |s| && !last)
                  && (more ==> p' == f.end + 1))
  {
    hide SkipSeparators, NextByte, NextSeparator, TrimmedEnd;
    start, more, p' := 0, false, p;
    var q := SkipWhileSeparator(t, line, p, s);
    if line[q] == 0 {
      return false, start, more, p';
    }
    found := true;
    if line[q] == 34 || line[q] == 39 {
      start := q + 1;
      var close := Strchr(line, q + 1, line[q], s);
      if line[close] == 0 {
        assert line[..] == old(line[..])[close := 0];
        return;
      }
      line[close] := 0;
      p' := close + 1;
      more := !last;
    } else {
      start := q;
      if last {
        var e := LastKept(t, line, q, s);
        line[e + 1] := 0;
        return;
      }
      var e := SkipToSeparator(t, line, q, s);
      if line[e] == 0 {
        assert line[..] == old(line[..])[e := 0];
        return;
      }
      line[e] := 0;
      p' := e + 1;
      more := true;
    }
  }

  function Starts(r: seq<Field>): (starts: seq<nat>)
    ensures |starts| == |r|
  {
    seq(|r|, k requires 0 <= k < |r| => r[k].start)
  }

  // The original bytes with a NUL at the end of every field.
  function CutLine(line: seq<byte>, r: seq<Field>): (cut: seq<byte>)
    requires forall k :: 0 <= k < |r| ==> r[k].end < |line|
    ensures |cut| == |line|
  {
    if r == [] then line else CutLine(line, r[..|r| - 1])[r[|r| - 1].end := 0]
  }

  lemma NothingCut(line: seq<byte>)
    ensures CutLine(line, []) == line && Starts([]) == []
  {
  }

  lemma OneMoreCut(line: seq<byte>, r: seq<Field>, f: Field)
    requires (forall k :: 0 <= k < |r| ==> r[k].end < |line|) && f.end < |line|
    ensures (forall k :: 0 <= k < |r + [f]| ==> (r + [f])[k].end < |line|)
    ensures CutLine(line, r + [f]) == CutLine(line, r)[f.end := 0]
    ensures Starts(r + [f]) == Starts(r) + [f.start]
  {
    assert (r + [f])[..|r|] == r;
  }

  lemma {:induction false} CutLineAt(line: seq<byte>, r: seq<Field>, j: nat)
    requires forall k :: 0 <= k < |r| ==> r[k].end < |line|
    requires j < |line|
    ensures CutLine(line, r)[j] == if exists k :: 0 <= k < |r| && r[k].end == j then 0 else line[j]
  {
    if r != [] {
      var before := r[..|r| - 1];
      CutLineAt(line, before, j);
      assert forall k :: 0 <= k < |before| ==> before[k] == r[k];
    }
  }

  // Every field reads, up to its NUL, as it did in the line.
  lemma FieldText(line: seq<byte>, s: seq<byte>, r: seq<Field>, k: nat)
    requires |line| > |s| && line[..|s|] == s && InOrder(r, 0, |s|) && k < |r|
    ensures var cut := CutLine(line, r);
            cut[r[k].start..r[k].end] == s[r[k].start..r[k].end] && cut[r[k].end] == 0
  {
    CutLineAt(line, r, r[k].end);
    forall j | r[k].start <= j < r[k].end ensures CutLine(line, r)[j] == s[j] {
      CutLineAt(line, r, j);
      Apart(r, 0, |s|, k, j);
    }
  }

  lemma {:induction false} Apart(r: seq<Field>, p: nat, size: nat, k: nat, j: nat)
    requires InOrder(r, p, size) && k < |r| && r[k].start <= j < r[k].end
    ensures forall i :: 0 <= i < |r| ==> r[i].end != j
  {
    forall i | 0 <= i < |r| ensures r[i].end != j {
      if i < k { EndsBefore(r, p, size, i, k); }
      if k < i { EndsBefore(r, p, size, k, i); }
    }
  }

  lemma {:induction false} EndsBefore(r: seq<Field>, p: nat, size: nat, i: nat, k: nat)
    requires InOrder(r, p, size) && i < k < |r|
    ensures r[i].end < r[k].start
  {
    if i + 1 < k { EndsBefore(r, p, size, i, k - 1); }
  }

  // The default table, the caller's table, or a table built from the caller's characters.
  method ChooseTable(ifs: Ifs) returns (t: seq<bool>)
    requires ValidIfs(ifs)
    ensures t == Chosen(ifs) && IsTable(t)
  {
    match ifs {
      case Blanks =>
        t := seq(256, c => c == 9 || c == 10 || c == 13 || c == 32);
      case Table(given) =>
        t := given;
      case Characters(chars) =>
        var tifs := BuildIfs(chars);
        t := tifs[..];
        assert forall c: byte :: t[c] <==> c in chars;
        assert forall c :: 0 <= c < 256 ==> t[c] == Chosen(ifs)[c];
    }
  }

  lemma StartsIntact(line: seq<byte>, s: seq<byte>)
    requires |s| < |line| && line[..|s|] == s && line[|s|] == 0 && forall j :: 0 <= j < |s| ==> s[j] != 0
    ensures Intact(line, s, 0)
  {
  }

  lemma StaysIntact(line: seq<byte>, s: seq<byte>, p: nat, e: nat)
    requires Intact(line, s, p) && p <= e <= |s|
    ensures Intact(line[e := 0], s, e + 1)
  {
  }

  // str_explode on a line whose characters before the NUL are s.
  method StrExplode(ifs: Ifs, line: array<byte>, n: nat, ghost s: seq<byte>) returns (fields: seq<nat>)
    requires ValidIfs(ifs) && n >= 1
    requires |s| < line.Length && line[..|s|] == s && line[|s|] == 0 && forall j :: 0 <= j < |s| ==> s[j] != 0
    modifies line
    ensures var r := Fields(Chosen(ifs), s, 0, n);
            && InOrder(r, 0, |s|) && |r| <= n
            && fields == Starts(r)
            && line[..] == CutLine(old(line[..]), r)
  {
    hide Fields, SkipSeparators, FieldAt, InOrder, Intact, CutLine, Starts, Chosen;
    NothingCut(line[..]);
    var t := ChooseTable(ifs);
    ghost var whole := Fields(t, s, 0, n);
    FieldsInOrder(t, s, 0, n);
    fields := [];
    ghost var done: seq<Field> := [];
    var p, more := 0, true;
    StartsIntact(line[..], s);
    while more
      invariant |done| <= n && (forall k :: 0 <= k < |done| ==> done[k].end < line.Length)
      invariant fields == Starts(done) && line[..] == CutLine(old(line[..]), done)
      invariant if more then p <= |s| && |done| < n && Intact(line[..], s, p) && whole == done + Fields(t, s, p, n - |done|)
                else whole == done
      decreases more, |s| - p
    {
      FieldsAre(t, s, p, n - |done|);
      ghost var before, p0 := line[..], p;
      ghost var q := SkipSeparators(t, s, p);
      var found, start;
      found, start, more, p := CutField(t, line, p, |fields| + 1 == n, s);
      if !found {
        assert done + [] == done;
        more := false;
        break;
      }
      ghost var f := FieldAt(t, s, q, |done| + 1 == n);
      StaysIntact(before, s, p0, f.end);
      OneMoreCut(old(line[..]), done, f);
      done := done + [f];
      fields := fields + [start];
    }
  }
}
