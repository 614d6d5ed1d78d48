/** Cutting `()` after a parenthesis-less identity keyword out of the original statement text. */
module SessionSpellings {
  import opened Wrappers

  /** 1-based, in characters, as the tokenizer counts. */
  datatype Location = Location(line: nat, column: nat)

  datatype Token = Word(value: string, quoted: bool) | LParen | RParen | Whitespace | OtherToken

  datatype Located = Located(token: Token, start: Location)

  // --- text and bytes ------------------------------------------------------------------------

  /** The k-th byte of a character's encoding. */
  datatype Byte = Byte(of: char, k: nat)

  /** How many bytes a character takes, section 3 of RFC 3629. */
  function Width(c: char): nat {
    if c as int < 0x80 then 1 else if c as int < 0x800 then 2 else if c as int < 0x1_0000 then 3 else 4
  }

  function Encode(c: char): (bytes: seq<Byte>)
    ensures 1 <= |bytes| == Width(c)
  {
    seq(Width(c), k requires 0 <= k < Width(c) => Byte(c, k))
  }

  function Utf8(text: string): seq<Byte> {
    if text == "" then [] else Utf8(text[..|text| - 1]) + Encode(text[|text| - 1])
  }

  /** The byte offset of the i-th character boundary. */
  function Offset(text: string, i: nat): nat
    requires i <= |text|
  {
    |Utf8(text[..i])|
  }

  lemma OffsetStep(text: string, i: nat)
    requires i < |text|
    ensures Offset(text, i + 1) == Offset(text, i) + |Encode(text[i])|
  {
    assert text[..i + 1][..i] == text[..i];
  }

  lemma {:induction false} OffsetsIncrease(text: string, i: nat, j: nat)
    requires i < j <= |text|
    ensures Offset(text, i) < Offset(text, j)
  {
    OffsetStep(text, j - 1);
    if i < j - 1 {
      OffsetsIncrease(text, i, j - 1);
    }
  }

  lemma {:induction false} Utf8Append(a: string, b: string)
    ensures Utf8(a + b) == Utf8(a) + Utf8(b)
    decreases |b|
  {
    if b == "" {
      assert a + b == a;
    } else {
      var n := |b| - 1;
      assert (a + b)[..|a| + n] == a + b[..n] && (a + b)[|a| + n] == b[n];
      Utf8Append(a, b[..n]);
      var last := Encode(b[n]);
      assert (Utf8(a) + Utf8(b[..n])) + last == Utf8(a) + (Utf8(b[..n]) + last);
    }
  }

  /** The bytes of a character are its own. */
  lemma BytesOf(text: string, i: nat)
    requires i < |text|
    ensures Offset(text, i) <= Offset(text, i + 1) <= |Utf8(text)|
    ensures Utf8(text)[Offset(text, i)..Offset(text, i + 1)] == Encode(text[i])
  {
    OffsetStep(text, i);
    assert text == text[..i + 1] + text[i + 1..] && text[..i + 1][..i] == text[..i];
    Utf8Append(text[..i + 1], text[i + 1..]);
  }

  // --- locations -----------------------------------------------------------------------------

  function Advance(l: Location, c: char): Location {
    if c == '\n' then Location(l.line + 1, 1) else Location(l.line, l.column + 1)
  }

  /** Where the i-th character boundary is. */
  function LocationOf(text: string, i: nat): Location
    requires i <= |text|
  {
    if i == 0 then Location(1, 1) else Advance(LocationOf(text, i - 1), text[i - 1])
  }

  predicate Before(a: Location, b: Location) {
    a.line < b.line || (a.line == b.line && a.column < b.column)
  }

  lemma {:induction false} LocationsIncrease(text: string, i: nat, j: nat)
    requires i < j <= |text|
    ensures Before(LocationOf(text, i), LocationOf(text, j))
  {
    if i < j - 1 {
      LocationsIncrease(text, i, j - 1);
    }
  }

  /** What `byte_offset_of` finds, looking from the i-th boundary on. */
  function Find(text: string, l: Location, i: nat): Option<nat>
    requires i <= |text|
    decreases |text| - i
  {
    if LocationOf(text, i) == l then Some(Offset(text, i))
    else if i == |text| then None
    else Find(text, l, i + 1)
  }

  method ByteOffsetOf(sql: string, location: Location) returns (r: Option<nat>)
    ensures r == Find(sql, location, 0)
  {
    var line, column := 1, 1;
    var offset := 0;
    var i := 0;
    while i < |sql|
      invariant 0 <= i <= |sql| && offset == Offset(sql, i)
      invariant Location(line, column) == LocationOf(sql, i)
      invariant Find(sql, location, 0) == Find(sql, location, i)
    {
      if line == location.line && column == location.column {
        return Some(offset);
      }
      OffsetStep(sql, i);
      offset := offset + Width(sql[i]);
      if sql[i] == '\n' {
        line, column := line + 1, 1;
      } else {
        column := column + 1;
      }
      i := i + 1;
    }
    return if line == location.line && column == location.column then Some(offset) else None;
  }

  lemma {:induction false} FindFrom(text: string, i: nat, j: nat)
    requires i <= j <= |text|
    ensures Find(text, LocationOf(text, j), i) == Some(Offset(text, j))
    decreases j - i
  {
    if i < j {
      LocationsIncrease(text, i, j);
      FindFrom(text, i + 1, j);
    }
  }

  /** `byte_offset_of` inverts the line and column of every character boundary, and answers for
      nothing else. */
  lemma ByteOffsetInverts(text: string, l: Location, i: nat)
    requires i <= |text|
    ensures Find(text, LocationOf(text, i), 0) == Some(Offset(text, i))
    ensures Find(text, l, 0).Some? ==>
      exists j :: 0 <= j <= |text| && LocationOf(text, j) == l && Find(text, l, 0).value == Offset(text, j)
  {
    FindFrom(text, 0, i);
    FoundAt(text, l, 0);
  }

  lemma {:induction false} FoundAt(text: string, l: Location, i: nat)
    requires i <= |text|
    ensures Find(text, l, i).Some? ==>
      exists j :: 0 <= j <= |text| && LocationOf(text, j) == l && Find(text, l, i).value == Offset(text, j)
    decreases |text| - i
  {
    if LocationOf(text, i) != l && i < |text| {
      FoundAt(text, l, i + 1);
    }
  }

  // --- the cuts ------------------------------------------------------------------------------

  function LowerChar(c: char): char {
    if 'A' <= c <= 'Z' then (c as int + 32) as char else c
  }

  function Lower(s: string): string {
    seq(|s|, i requires 0 <= i < |s| => LowerChar(s[i]))
  }

  /** An unquoted identity keyword followed by an empty pair of parentheses. */
  predicate IsCall(tokens: seq<Located>, k: nat) {
    && k + 2 < |tokens|
    && tokens[k].token.Word? && !tokens[k].token.quoted
    && Lower(tokens[k].token.value) in {"current_user", "session_user"}
    && tokens[k + 1].token.LParen? && tokens[k + 2].token.RParen?
  }

  function Significant(tokens: seq<Located>): seq<Located> {
    if tokens == [] then []
    else Significant(tokens[..|tokens| - 1]) + if tokens[|tokens| - 1].token.Whitespace? then [] else [tokens[|tokens| - 1]]
  }

  function CutAt(sql: string, tokens: seq<Located>, k: nat): seq<(nat, nat)> {
    if !IsCall(tokens, k) then []
    else
      var from, to := Find(sql, tokens[k + 1].start, 0), Find(sql, tokens[k + 2].start, 0);
      if from.Some? && to.Some? then [(from.value, to.value + 1)] else []
  }

  function CutsTo(sql: string, tokens: seq<Located>, k: nat): seq<(nat, nat)> {
    if k == 0 then [] else CutsTo(sql, tokens, k - 1) + CutAt(sql, tokens, k - 1)
  }

  method CollectCuts(sql: string, all: seq<Located>) returns (cuts: seq<(nat, nat)>)
    ensures cuts == CutsTo(sql, Significant(all), |Significant(all)|)
  {
    var tokens: seq<Located> := [];
    for i := 0 to |all|
      invariant tokens == Significant(all[..i])
    {
      assert all[..i + 1][..i] == all[..i];
      if !all[i].token.Whitespace? {
        tokens := tokens + [all[i]];
      }
    }
    assert all[..|all|] == all;
    cuts := [];
    for k := 0 to |tokens|
      invariant cuts == CutsTo(sql, tokens, k)
    {
      if IsCall(tokens, k) {
        var from := ByteOffsetOf(sql, tokens[k + 1].start);
        var to := ByteOffsetOf(sql, tokens[k + 2].start);
        if from.Some? && to.Some? {
          cuts := cuts + [(from.value, to.value + 1)];
        }
      }
    }
  }

  /** What a tokenizer reports: each significant token starts at its own character. */
  ghost predicate Scanned(sql: string, tokens: seq<Located>, at: seq<nat>) {
    && |at| == |tokens|
    && (forall i :: 0 <= i < |at| ==> at[i] < |sql| && tokens[i].start == LocationOf(sql, at[i]))
    && (forall i, j :: 0 <= i < j < |at| ==> at[i] < at[j])
    && (forall i :: 0 <= i < |at| && tokens[i].token.LParen? ==> sql[at[i]] == '(')
    && (forall i :: 0 <= i < |at| && tokens[i].token.RParen? ==> sql[at[i]] == ')')
  }

  /** The character ranges the keywords' parentheses take, both brackets included. */
  function Ranges(tokens: seq<Located>, at: seq<nat>, k: nat): seq<(nat, nat)>
    requires |at| == |tokens|
  {
    if k == 0 then []
    else Ranges(tokens, at, k - 1) + if IsCall(tokens, k - 1) then [(at[k], at[k + 1] + 1)] else []
  }

  /** The same letters, whatever their case. */
  predicate SameWord(a: string, b: string) {
    |a| == |b| && forall i :: 0 <= i < |a| ==>
      a[i] == b[i] || ('A' <= a[i] <= 'Z' && b[i] as int == a[i] as int + 32)
  }

  /** An unquoted `current_user` or `session_user`, in any case, and then `(` and `)`. */
  predicate WrittenCall(tokens: seq<Located>, k: nat) {
    && k + 2 < |tokens|
    && tokens[k].token.Word? && !tokens[k].token.quoted
    && (SameWord(tokens[k].token.value, "current_user") || SameWord(tokens[k].token.value, "session_user"))
    && tokens[k + 1].token == LParen && tokens[k + 2].token == RParen
  }

  lemma LowerIsSame(a: string, b: string)
    requires forall i :: 0 <= i < |b| ==> !('A' <= b[i] <= 'Z')
    ensures Lower(a) == b <==> SameWord(a, b)
  {
    if SameWord(a, b) {
      forall i | 0 <= i < |a| ensures Lower(a)[i] == b[i] {
      }
    }
    if Lower(a) == b {
      forall i | 0 <= i < |a| ensures a[i] == b[i] || ('A' <= a[i] <= 'Z' && b[i] as int == a[i] as int + 32) {
        assert Lower(a)[i] == b[i];
      }
    }
  }

  lemma CallIsWritten(tokens: seq<Located>, k: nat)
    ensures IsCall(tokens, k) <==> WrittenCall(tokens, k)
  {
    if k + 2 < |tokens| && tokens[k].token.Word? {
      LowerIsSame(tokens[k].token.value, "current_user");
      LowerIsSame(tokens[k].token.value, "session_user");
    }
  }

  /** The ranges are those of the written calls, each once and no other. */
  lemma {:induction false} RangesExactly(tokens: seq<Located>, at: seq<nat>, k: nat)
    requires |at| == |tokens| && k <= |tokens|
    ensures forall range :: range in Ranges(tokens, at, k) <==>
      exists m :: 0 <= m < k && WrittenCall(tokens, m) && range == (at[m + 1], at[m + 2] + 1)
  {
    if k > 0 {
      RangesExactly(tokens, at, k - 1);
      CallIsWritten(tokens, k - 1);
    }
  }

  predicate Ordered(cuts: seq<(nat, nat)>, bound: nat) {
    && (forall i :: 0 <= i < |cuts| ==> cuts[i].0 < cuts[i].1 <= bound)
    && (forall i, j :: 0 <= i < j < |cuts| ==> cuts[i].1 <= cuts[j].0)
  }

  /** A range ends at the closing parenthesis of an earlier match. */
  predicate RangeEnds(tokens: seq<Located>, at: seq<nat>, k: nat, range: (nat, nat))
    requires |at| == |tokens|
  {
    exists m :: 0 <= m < k && IsCall(tokens, m) && range.1 == at[m + 2] + 1
  }

  lemma {:induction false} RangesEnd(tokens: seq<Located>, at: seq<nat>, k: nat, i: nat)
    requires |at| == |tokens| && i < |Ranges(tokens, at, k)|
    ensures RangeEnds(tokens, at, k, Ranges(tokens, at, k)[i])
  {
    var front := Ranges(tokens, at, k - 1);
    if i < |front| {
      RangesEnd(tokens, at, k - 1, i);
      var m :| 0 <= m < k - 1 && IsCall(tokens, m) && front[i].1 == at[m + 2] + 1;
    } else {
      assert IsCall(tokens, k - 1) && at[k - 1 + 2] == at[k + 1];
    }
  }

  /** The ranges are in bounds, in order and disjoint: a match's tokens are not the start of another. */
  lemma {:induction false} RangesOrdered(sql: string, tokens: seq<Located>, at: seq<nat>, k: nat)
    requires Scanned(sql, tokens, at) && k <= |tokens|
    ensures Ordered(Ranges(tokens, at, k), |sql|)
  {
    if k > 0 {
      RangesOrdered(sql, tokens, at, k - 1);
      if IsCall(tokens, k - 1) {
        var front := Ranges(tokens, at, k - 1);
        forall i | 0 <= i < |front| ensures front[i].1 <= at[k] {
          RangesEnd(tokens, at, k - 1, i);
          var m :| 0 <= m < k - 1 && IsCall(tokens, m) && front[i].1 == at[m + 2] + 1;
          LaterMatch(tokens, m, k - 1);
        }
        OrderedSnoc(front, at[k], at[k + 1] + 1, |sql|);
      }
    }
  }

  lemma LaterMatch(tokens: seq<Located>, m: nat, k: nat)
    requires IsCall(tokens, m) && IsCall(tokens, k) && m < k
    ensures m + 2 < k
  {
  }

  lemma OrderedSnoc(cuts: seq<(nat, nat)>, from: nat, to: nat, bound: nat)
    requires Ordered(cuts, bound) && from < to <= bound && forall i :: 0 <= i < |cuts| ==> cuts[i].1 <= from
    ensures Ordered(cuts + [(from, to)], bound)
  {
  }

  function Bytes(sql: string, range: (nat, nat)): (nat, nat)
    requires range.0 <= |sql| && range.1 <= |sql|
  {
    (Offset(sql, range.0), Offset(sql, range.1))
  }

  predicate CutsMatch(sql: string, ranges: seq<(nat, nat)>, cuts: seq<(nat, nat)>) {
    && |cuts| == |ranges|
    && forall i :: 0 <= i < |cuts| ==>
         ranges[i].0 <= |sql| && ranges[i].1 <= |sql| && cuts[i] == Bytes(sql, ranges[i])
  }

  lemma CutIsRange(sql: string, tokens: seq<Located>, at: seq<nat>, k: nat)
    requires Scanned(sql, tokens, at) && IsCall(tokens, k)
    ensures CutAt(sql, tokens, k) == [Bytes(sql, (at[k + 1], at[k + 2] + 1))]
  {
    var open, close := at[k + 1], at[k + 2];
    assert tokens[k + 1].start == LocationOf(sql, open) && tokens[k + 2].start == LocationOf(sql, close);
    ByteOffsetInverts(sql, tokens[k + 1].start, open);
    ByteOffsetInverts(sql, tokens[k + 2].start, close);
    assert sql[close] == ')';
    OffsetStep(sql, close);
  }

  /** The collected cuts are the byte offsets of those ranges. */
  lemma {:induction false} CutsAreRanges(sql: string, tokens: seq<Located>, at: seq<nat>, k: nat)
    requires Scanned(sql, tokens, at) && k <= |tokens|
    ensures CutsMatch(sql, Ranges(tokens, at, k), CutsTo(sql, tokens, k))
  {
    if k > 0 {
      CutsAreRanges(sql, tokens, at, k - 1);
      if IsCall(tokens, k - 1) {
        CutIsRange(sql, tokens, at, k - 1);
        assert at[k] < |sql| && at[k + 1] < |sql|;
        MatchSnoc(sql, Ranges(tokens, at, k - 1), CutsTo(sql, tokens, k - 1), (at[k], at[k + 1] + 1));
      }
    }
  }

  lemma MatchSnoc(sql: string, ranges: seq<(nat, nat)>, cuts: seq<(nat, nat)>, range: (nat, nat))
    requires CutsMatch(sql, ranges, cuts) && range.0 <= |sql| && range.1 <= |sql|
    ensures CutsMatch(sql, ranges + [range], cuts + [Bytes(sql, range)])
  {
  }

  lemma OffsetsOrdered(text: string, i: nat, j: nat)
    requires i <= j <= |text|
    ensures Offset(text, i) <= Offset(text, j)
  {
    if i < j {
      OffsetsIncrease(text, i, j);
    }
  }

  lemma OrderedBytes(sql: string, ranges: seq<(nat, nat)>, cuts: seq<(nat, nat)>)
    requires Ordered(ranges, |sql|) && CutsMatch(sql, ranges, cuts)
    ensures Ordered(cuts, |Utf8(sql)|)
  {
    assert sql[..|sql|] == sql;
    forall i | 0 <= i < |cuts| ensures cuts[i].0 < cuts[i].1 <= |Utf8(sql)| {
      OffsetsIncrease(sql, ranges[i].0, ranges[i].1);
      OffsetsOrdered(sql, ranges[i].1, |sql|);
    }
    forall i, j | 0 <= i < j < |cuts| ensures cuts[i].1 <= cuts[j].0 {
      OffsetsOrdered(sql, ranges[i].1, ranges[j].0);
    }
  }

  /** The collected cuts are in bounds, in order and disjoint. */
  lemma CutsOrdered(sql: string, tokens: seq<Located>, at: seq<nat>)
    requires Scanned(sql, tokens, at)
    ensures Ordered(CutsTo(sql, tokens, |tokens|), |Utf8(sql)|)
  {
    CutsAreRanges(sql, tokens, at, |tokens|);
    RangesOrdered(sql, tokens, at, |tokens|);
    OrderedBytes(sql, Ranges(tokens, at, |tokens|), CutsTo(sql, tokens, |tokens|));
  }

  // --- the copy ------------------------------------------------------------------------------

  predicate Cut(cuts: seq<(nat, nat)>, i: nat) {
    exists n :: 0 <= n < |cuts| && cuts[n].0 <= i < cuts[n].1
  }

  /** What is left from position `i` on: every element outside the cuts, in order. */
  function Keep<T>(xs: seq<T>, cuts: seq<(nat, nat)>, i: nat): seq<T>
    requires i <= |xs|
    decreases |xs| - i
  {
    if i == |xs| then [] else (if Cut(cuts, i) then [] else [xs[i]]) + Keep(xs, cuts, i + 1)
  }

  lemma {:induction false} KeepAll<T>(xs: seq<T>, cuts: seq<(nat, nat)>, i: nat, j: nat)
    requires i <= j <= |xs| && forall k :: i <= k < j ==> !Cut(cuts, k)
    ensures Keep(xs, cuts, i) == xs[i..j] + Keep(xs, cuts, j)
    decreases j - i
  {
    if i < j {
      KeepAll(xs, cuts, i + 1, j);
      var rest := Keep(xs, cuts, j);
      assert xs[i..j] == [xs[i]] + xs[i + 1..j];
      assert [xs[i]] + (xs[i + 1..j] + rest) == ([xs[i]] + xs[i + 1..j]) + rest;
    }
  }

  lemma {:induction false} KeepNone<T>(xs: seq<T>, cuts: seq<(nat, nat)>, i: nat, j: nat)
    requires i <= j <= |xs| && forall k :: i <= k < j ==> Cut(cuts, k)
    ensures Keep(xs, cuts, i) == Keep(xs, cuts, j)
    decreases j - i
  {
    if i < j {
      KeepNone(xs, cuts, i + 1, j);
    }
  }

  /** The copy loop over the bytes of the statement. */
  method CopyOutside(bytes: seq<Byte>, cuts: seq<(nat, nat)>) returns (out: seq<Byte>)
    requires Ordered(cuts, |bytes|)
    ensures out == Keep(bytes, cuts, 0)
  {
    out := [];
    var copied := 0;
    for n := 0 to |cuts|
      invariant copied <= |bytes| && (copied == 0 || (n > 0 && copied == cuts[n - 1].1))
      invariant n > 0 ==> copied == cuts[n - 1].1
      invariant Keep(bytes, cuts, 0) == out + Keep(bytes, cuts, copied)
    {
      var (from, to) := cuts[n];
      forall k | copied <= k < from ensures !Cut(cuts, k) {
        assert forall m :: 0 <= m < n ==> cuts[m].1 <= copied;
        assert forall m :: n < m < |cuts| ==> cuts[n].1 <= cuts[m].0;
      }
      KeepAll(bytes, cuts, copied, from);
      KeepNone(bytes, cuts, from, to);
      out := out + bytes[copied..from];
      copied := to;
    }
    forall k | copied <= k < |bytes| ensures !Cut(cuts, k) {
      assert forall m :: 0 <= m < |cuts| ==> cuts[m].1 <= copied;
    }
    KeepAll(bytes, cuts, copied, |bytes|);
    out := out + bytes[copied..];
  }

  /** Cutting bytes at character boundaries is cutting characters. */
  lemma {:induction false} KeepCharacters(sql: string, ranges: seq<(nat, nat)>, cuts: seq<(nat, nat)>, i: nat)
    requires i <= |sql| && CutsMatch(sql, ranges, cuts) && Offset(sql, i) <= |Utf8(sql)|
    ensures Keep(Utf8(sql), cuts, Offset(sql, i)) == Utf8(Keep(sql, ranges, i))
    decreases |sql| - i
  {
    if i == |sql| {
      assert sql[..i] == sql;
    } else {
      BytesOf(sql, i);
      KeepCharacters(sql, ranges, cuts, i + 1);
      KeepOne(sql, ranges, cuts, i);
      var rest := Keep(sql, ranges, i + 1);
      if Cut(ranges, i) {
        assert Keep(sql, ranges, i) == rest;
      } else {
        Utf8Append([sql[i]], rest);
        assert Utf8([sql[i]]) == Encode(sql[i]) by {
          assert [sql[i]][..0] == [];
        }
      }
    }
  }

  lemma KeepOne(sql: string, ranges: seq<(nat, nat)>, cuts: seq<(nat, nat)>, i: nat)
    requires i < |sql| && CutsMatch(sql, ranges, cuts)
    ensures Offset(sql, i) <= Offset(sql, i + 1) <= |Utf8(sql)|
    ensures Keep(Utf8(sql), cuts, Offset(sql, i))
         == (if Cut(ranges, i) then [] else Encode(sql[i])) + Keep(Utf8(sql), cuts, Offset(sql, i + 1))
  {
    BytesOf(sql, i);
    var from, to := Offset(sql, i), Offset(sql, i + 1);
    forall b | from <= b < to ensures Cut(cuts, b) <==> Cut(ranges, i) {
      SameCut(sql, ranges, cuts, i, b);
    }
    if Cut(ranges, i) {
      KeepNone(Utf8(sql), cuts, from, to);
    } else {
      KeepAll(Utf8(sql), cuts, from, to);
    }
  }

  lemma SameCut(sql: string, ranges: seq<(nat, nat)>, cuts: seq<(nat, nat)>, i: nat, b: nat)
    requires i < |sql| && CutsMatch(sql, ranges, cuts) && Offset(sql, i) <= b < Offset(sql, i + 1)
    ensures Cut(cuts, b) <==> Cut(ranges, i)
  {
    forall n | 0 <= n < |ranges|
      ensures cuts[n].0 <= b < cuts[n].1 <==> ranges[n].0 <= i < ranges[n].1
    {
      Between(sql, ranges[n].0, i, b);
      Between(sql, ranges[n].1, i, b);
    }
  }

  lemma Between(sql: string, c: nat, i: nat, b: nat)
    requires c <= |sql| && i < |sql| && Offset(sql, i) <= b < Offset(sql, i + 1)
    ensures Offset(sql, c) <= b <==> c <= i
  {
    if c < i {
      OffsetsIncrease(sql, c, i);
    } else if i + 1 < c {
      OffsetsIncrease(sql, i + 1, c);
    }
  }

  lemma KeepUncut(sql: string)
    ensures Keep(sql, [], 0) == sql
  {
    KeepAll(sql, [], 0, |sql|);
    assert sql[0..|sql|] + [] == sql;
  }

  /** The edit removes exactly the matched pairs of parentheses and what stands inside them, and
      nothing else, whatever the width of the characters around them. */
  method DropParentheses(sql: string, all: seq<Located>, ghost at: seq<nat>) returns (out: seq<Byte>)
    requires Scanned(sql, Significant(all), at)
    ensures out == Utf8(Keep(sql, Ranges(Significant(all), at, |Significant(all)|), 0))
  {
    var cuts := CollectCuts(sql, all);
    ghost var tokens := Significant(all);
    CutsAreRanges(sql, tokens, at, |tokens|);
    if cuts == [] {
      KeepUncut(sql);
      return Utf8(sql);
    }
    CutsOrdered(sql, tokens, at);
    out := CopyOutside(Utf8(sql), cuts);
    assert sql[..0] == "" && Offset(sql, 0) == 0;
    KeepCharacters(sql, Ranges(tokens, at, |tokens|), cuts, 0);
  }
}
