/** Escaping text for a JSON string into a bounded buffer, without its ANSI sequences. */
module JsonEscape {

  const NUL: char := 0 as char
  const ESC: char := 27 as char

  // ----- what the text is without its ANSI sequences -----

  /** The character at `i` of a C string: its terminator comes after the last character. */
  function At(src: string, i: nat): char
    requires i <= |src|
  {
    if i < |src| then src[i] else NUL
  }

  predicate StartsAnsi(src: string, i: nat): (starts: bool)
    requires i < |src|
    ensures starts ==> i + 2 <= |src|
  {
    src[i] == ESC && At(src, i + 1) == '['
  }

  /** The first 'm' at or after `i`, or the terminator. */
  function AnsiEnd(src: string, i: nat): (k: nat)
    requires i <= |src|
    ensures i <= k <= |src|
    decreases |src| - i
  {
    if i == |src| || src[i] == 'm' then i else AnsiEnd(src, i + 1)
  }

  /** The text from `i` on, with every sequence `ESC [ ... m` removed. */
  function Strip(src: string, i: nat): string
    requires i <= |src|
    decreases |src| - i
  {
    if i == |src| then ""
    else if StartsAnsi(src, i) then
      var k := AnsiEnd(src, i + 2);
      if k == |src| then "" else Strip(src, k + 1)
    else [src[i]] + Strip(src, i + 1)
  }

  /** Every `ESC [` from `i` on has its 'm'. */
  predicate Closed(src: string, i: nat)
    requires i <= |src|
    decreases |src| - i
  {
    if i == |src| then true
    else if StartsAnsi(src, i) then
      var k := AnsiEnd(src, i + 2);
      k < |src| && Closed(src, k + 1)
    else Closed(src, i + 1)
  }

  /** An `ESC [` at `i`. */
  predicate Opens(src: string, i: nat) { i + 1 < |src| && src[i] == 27 as char && src[i + 1] == '[' }

  lemma OneIsKept(src: string, i: nat)
    requires i < |src| && !Opens(src, i)
    ensures Strip(src, i) == [src[i]] + Strip(src, i + 1) && Closed(src, i) == Closed(src, i + 1)
  {
  }

  /** Text without `ESC [` is kept character by character. */
  lemma {:induction false} PlainIsKept(src: string, i: nat, n: nat)
    requires i <= n <= |src| && forall j: nat :: i <= j < n ==> !Opens(src, j)
    ensures Strip(src, i) == src[i..n] + Strip(src, n)
    ensures Closed(src, i) == Closed(src, n)
    decreases n - i
  {
    if i == n {
      assert src[i..n] + Strip(src, n) == Strip(src, n);
    } else {
      OneIsKept(src, i);
      PlainIsKept(src, i + 1, n);
      FrontOf(src, i, n, Strip(src, n));
    }
  }

  lemma FrontOf(src: string, i: nat, n: nat, rest: string)
    requires i < n <= |src|
    ensures [src[i]] + (src[i + 1..n] + rest) == src[i..n] + rest
  {
    assert src[i..n] == [src[i]] + src[i + 1..n];
  }

  lemma {:induction false} EndIsFirst(src: string, i: nat, k: nat)
    requires i <= k <= |src| && 'm' !in src[i..k] && (k == |src| || src[k] == 'm')
    ensures AnsiEnd(src, i) == k
    decreases k - i
  {
    if i < k {
      assert src[i..k][0] == src[i];
      assert forall c :: c in src[i + 1..k] ==> c in src[i..k];
      EndIsFirst(src, i + 1, k);
    }
  }

  /** A sequence goes from `ESC [` to the first 'm' after it, and takes nothing else with it. */
  lemma SequenceIsDropped(src: string, i: nat, k: nat)
    requires i + 2 <= k < |src| && Opens(src, i) && 'm' !in src[i + 2..k] && src[k] == 'm'
    ensures Strip(src, i) == Strip(src, k + 1) && Closed(src, i) == Closed(src, k + 1)
  {
    EndIsFirst(src, i + 2, k);
  }

  /** Without an 'm' after it, a sequence takes the rest of the text. */
  lemma UnclosedTakesTheRest(src: string, i: nat)
    requires i + 2 <= |src| && Opens(src, i) && 'm' !in src[i + 2..]
    ensures Strip(src, i) == "" && !Closed(src, i)
  {
    assert src[i + 2..] == src[i + 2..|src|];
    EndIsFirst(src, i + 2, |src|);
  }

  /** What is left from `i` on is the same with `p` in front. */
  predicate Shifts(p: string, s: string, i: nat) {
    i <= |s| && Strip(p + s, |p| + i) == Strip(s, i) && Closed(p + s, |p| + i) == Closed(s, i)
  }

  lemma ShiftsPlain(p: string, s: string, i: nat)
    requires i < |s| && !Opens(s, i) && Shifts(p, s, i + 1)
    ensures Shifts(p, s, i)
  {
    OpensSuffix(p, s, i);
    OneIsKept(s, i);
    OneIsKept(p + s, |p| + i);
  }

  lemma ShiftsOpening(p: string, s: string, i: nat)
    requires Opens(s, i) && (AnsiEnd(s, i + 2) < |s| ==> Shifts(p, s, AnsiEnd(s, i + 2) + 1))
    ensures Shifts(p, s, i)
  {
    OpensSuffix(p, s, i);
    EndSuffix(p, s, i + 2);
    AtOpening(s, i);
    AtOpening(p + s, |p| + i);
  }

  /** What is left of a text depends on nothing before it. */
  lemma {:induction false} StripSuffix(p: string, s: string, i: nat)
    requires i <= |s|
    ensures Shifts(p, s, i)
    decreases |s| - i
  {
    if i == |s| {
    } else if Opens(s, i) {
      var k := AnsiEnd(s, i + 2);
      if k < |s| { StripSuffix(p, s, k + 1); }
      ShiftsOpening(p, s, i);
    } else {
      StripSuffix(p, s, i + 1);
      ShiftsPlain(p, s, i);
    }
  }

  lemma OpensSuffix(p: string, s: string, i: nat)
    requires i < |s|
    ensures (p + s)[|p| + i] == s[i] && (Opens(p + s, |p| + i) <==> Opens(s, i))
  {
  }

  lemma AtOpening(src: string, i: nat)
    requires Opens(src, i)
    ensures var k := AnsiEnd(src, i + 2);
      && Strip(src, i) == (if k == |src| then "" else Strip(src, k + 1))
      && Closed(src, i) == (k < |src| && Closed(src, k + 1))
  {
  }

  lemma {:induction false} EndSuffix(p: string, s: string, i: nat)
    requires i <= |s|
    ensures AnsiEnd(p + s, |p| + i) == |p| + AnsiEnd(s, i)
    decreases |s| - i
  {
    if i < |s| { EndSuffix(p, s, i + 1); }
  }

  /** A sequence at the front of a text goes, and nothing else. */
  lemma SequenceInFront(body: string, rest: string)
    requires 'm' !in body
    ensures Strip(([ESC, '['] + body + ['m']) + rest, 0) == Strip(rest, 0)
    ensures Closed(([ESC, '['] + body + ['m']) + rest, 0) == Closed(rest, 0)
  {
    var sequence := [ESC, '['] + body + ['m'];
    var s := sequence + rest;
    assert s[2..2 + |body|] == body && s[2 + |body|] == 'm';
    SequenceIsDropped(s, 0, 2 + |body|);
    StripSuffix(sequence, rest, 0);
  }

  /** A text in parts: plain text, which is kept, and then the rest. */
  lemma PlainInFront(plain: string, rest: string)
    requires forall j: nat :: j < |plain| ==> !Opens(plain + rest, j)
    ensures Strip(plain + rest, 0) == plain + Strip(rest, 0) && Closed(plain + rest, 0) == Closed(rest, 0)
  {
    PlainIsKept(plain + rest, 0, |plain|);
    assert (plain + rest)[0..|plain|] == plain;
    StripSuffix(plain, rest, 0);
  }

  /** Every `ESC [` from `i` on has an 'm' somewhere after it. */
  ghost predicate EveryOpeningCloses(src: string, i: nat) {
    forall j: nat :: i <= j && Opens(src, j) ==> 'm' in src[j + 2..]
  }

  /** `Closed` means just that. */
  lemma {:induction false} ClosedMeans(src: string, i: nat)
    requires i <= |src|
    ensures Closed(src, i) <==> EveryOpeningCloses(src, i)
    decreases |src| - i
  {
    if i < |src| {
      if Opens(src, i) {
        ClosedAtOpening(src, i);
        var k := AnsiEnd(src, i + 2);
        if k < |src| { ClosedMeans(src, k + 1); }
      } else {
        ClosedMeans(src, i + 1);
        assert forall j: nat :: i <= j && Opens(src, j) ==> i + 1 <= j;
      }
    }
  }

  lemma {:induction false} EndIsM(src: string, i: nat)
    requires i <= |src|
    ensures AnsiEnd(src, i) == |src| <==> 'm' !in src[i..]
    ensures AnsiEnd(src, i) < |src| ==> src[AnsiEnd(src, i)] == 'm'
    decreases |src| - i
  {
    if i < |src| {
      EndIsM(src, i + 1);
      assert src[i..] == [src[i]] + src[i + 1..];
    }
  }

  lemma ClosedAtOpening(src: string, i: nat)
    requires Opens(src, i)
    ensures var k := AnsiEnd(src, i + 2);
      EveryOpeningCloses(src, i) <==> k < |src| && EveryOpeningCloses(src, k + 1)
  {
    var k := AnsiEnd(src, i + 2);
    EndIsM(src, i + 2);
    if k < |src| {
      forall j: nat | i <= j <= k && Opens(src, j) ensures 'm' in src[j + 2..] {
        assert src[k] == 'm' && j + 2 <= k;
        assert src[j + 2..][k - (j + 2)] == 'm';
      }
    }
  }

  // ----- escaping -----

  /** What a character becomes. */
  function Token(c: char): (t: string)
    ensures 1 <= |t| <= 2
  {
    if c == '"' then ['\\', '"']
    else if c == '\\' then ['\\', '\\']
    else if c == '\n' then ['\\', 'n']
    else if c == '\t' then ['\\', 't']
    else if c == '\r' then ['\\', 'r']
    else [c]
  }

  function EscapeAll(s: string): string {
    if s == "" then "" else Token(s[0]) + EscapeAll(s[1..])
  }

  /** The tokens that fit into `room` characters: one that does not fit is left out, and the next one is tried. */
  function Emit(s: string, room: nat): (out: string)
    ensures |out| <= room
  {
    if s == "" || room == 0 then ""
    else if |Token(s[0])| <= room then Token(s[0]) + Emit(s[1..], room - |Token(s[0])|)
    else Emit(s[1..], room)
  }

  /**
   Escapes `src` into `dst` and terminates it.  A sequence that is never closed makes the index run
   over the terminator of `src`; `overrun` tells when, and nothing is promised then.
   */
  method EscapeJsonString(src: string, dst: array<char>) returns (j: nat, overrun: bool)
    requires dst.Length >= 1 && NUL !in src
    modifies dst
    ensures j < dst.Length && dst[..j] == Emit(Strip(src, 0), dst.Length - 1)
    ensures overrun <==> !Closed(src, 0) && |Emit(Strip(src, 0), dst.Length - 1)| < dst.Length - 1
    ensures !overrun ==> dst[j] == NUL
    ensures !overrun ==> ReadsBack(dst[..j], src, dst.Length)
  {
    j, overrun := EscapeLoop(src, dst);
    if !overrun {
      dst[j] := NUL;
    }
    EmitReadsBack(src, dst.Length);
  }

  /** The loop over the text, before the terminator is written. */
  method EscapeLoop(src: string, dst: array<char>) returns (j: nat, overrun: bool)
    requires dst.Length >= 1 && NUL !in src
    modifies dst
    ensures j < dst.Length && dst[..j] == Emit(Strip(src, 0), dst.Length - 1)
    ensures overrun <==> !Closed(src, 0) && j < dst.Length - 1
  {
    var i := 0;
    j, overrun := 0, false;
    while i < |src| && j < dst.Length - 1
      invariant i <= |src| && j < dst.Length && (overrun ==> i == |src|)
      invariant Output(src, i, dst[..j], dst.Length - 1 - j) == Emit(Strip(src, 0), dst.Length - 1)
      invariant Closed(src, 0) == (!overrun && Closed(src, i))
      invariant overrun ==> j < dst.Length - 1
      decreases |src| - i
    {
      i, j, overrun := EscapeNext(src, i, dst, j);
    }
  }

  /** The output when `written` is there, the text is read up to `i` and there is `room` for more. */
  ghost function Output(src: string, i: nat, written: string, room: nat): string
    requires i <= |src|
  {
    written + Emit(Strip(src, i), room)
  }

  /** One turn of the loop: skips a sequence or writes what a character becomes. */
  method EscapeNext(src: string, i: nat, dst: array<char>, j: nat) returns (next: nat, k: nat, overrun: bool)
    requires i < |src| && j < dst.Length - 1
    modifies dst
    ensures i < next <= |src| && j <= k < dst.Length
    ensures Output(src, next, dst[..k], dst.Length - 1 - k) == Output(src, i, old(dst[..j]), dst.Length - 1 - j)
    ensures Closed(src, i) == (!overrun && Closed(src, next))
    ensures overrun ==> next == |src| && k == j
  {
    k, overrun := j, false;
    if StartsAnsi(src, i) {
      next := SkipAnsi(src, i);
      if next == |src| {
        return next, j, true;
      }
      assert Strip(src, next + 1) == Strip(src, i);
    } else {
      next := i;
      k := PutNext(src, i, dst, j);
    }
    next := next + 1;
  }

  /** Emitting a character that starts no sequence: its token if it fits, then the rest. */
  lemma EmitStep(src: string, i: nat, room: nat)
    requires i < |src| && !StartsAnsi(src, i) && room > 0
    ensures var t := if |Token(src[i])| <= room then Token(src[i]) else "";
      Emit(Strip(src, i), room) == t + Emit(Strip(src, i + 1), room - |t|)
  {
    EmitFirst(src[i], Strip(src, i + 1), room);
  }

  lemma EmitFirst(c: char, rest: string, room: nat)
    requires room > 0
    ensures var t := if |Token(c)| <= room then Token(c) else "";
      Emit([c] + rest, room) == t + Emit(rest, room - |t|)
  {
    assert ([c] + rest)[1..] == rest;
  }

  /** Writes what the character at `i` becomes; the rest goes after it. */
  method PutNext(src: string, i: nat, dst: array<char>, j: nat) returns (k: nat)
    requires i < |src| && !StartsAnsi(src, i) && j < dst.Length - 1
    modifies dst
    ensures j <= k < dst.Length
    ensures Output(src, i + 1, dst[..k], dst.Length - 1 - k) == Output(src, i, old(dst[..j]), dst.Length - 1 - j)
  {
    Written(dst[..j], src, i, dst.Length - 1 - j);
    k := Put(src[i], dst, j);
  }

  lemma Written(written: string, src: string, i: nat, room: nat)
    requires i < |src| && !StartsAnsi(src, i) && room > 0
    ensures var t := if |Token(src[i])| <= room then Token(src[i]) else "";
      Output(src, i + 1, written + t, room - |t|) == Output(src, i, written, room)
  {
    EmitStep(src, i, room);
    var t := if |Token(src[i])| <= room then Token(src[i]) else "";
    Regroup(written, t, Emit(Strip(src, i + 1), room - |t|));
  }

  lemma Regroup(a: string, b: string, c: string)
    ensures (a + b) + c == a + (b + c)
  {
    assert (a + b) + c == a + (b + c);
  }

  /** Skips from `ESC` to the closing 'm' or the terminator. */
  method SkipAnsi(src: string, start: nat) returns (i: nat)
    requires start < |src| && StartsAnsi(src, start)
    ensures start < i <= |src|
    ensures Strip(src, start) == if i == |src| then "" else Strip(src, i + 1)
    ensures Closed(src, start) == (i < |src| && Closed(src, i + 1))
  {
    i := start + 2;
    while i < |src| && src[i] != 'm'
      invariant start + 2 <= i <= |src|
      invariant AnsiEnd(src, i) == AnsiEnd(src, start + 2)
    {
      i := i + 1;
    }
  }

  /** Writes the token of `c` at `j` if there is room before the terminator. */
  method Put(c: char, dst: array<char>, j: nat) returns (k: nat)
    requires j < dst.Length - 1
    modifies dst
    ensures j <= k < dst.Length && dst[..j] == old(dst[..j])
    ensures dst[..k] == old(dst[..j]) + if j + |Token(c)| < dst.Length then Token(c) else ""
  {
    k := j;
    if c == '"' {
      k := PutPair('"', dst, j);
    } else if c == '\\' {
      k := PutPair('\\', dst, j);
    } else if c == '\n' {
      k := PutPair('n', dst, j);
    } else if c == '\t' {
      k := PutPair('t', dst, j);
    } else if c == '\r' {
      k := PutPair('r', dst, j);
    } else {
      dst[k] := c;
      k := k + 1;
    }
  }

  method PutPair(c: char, dst: array<char>, j: nat) returns (k: nat)
    requires j < dst.Length - 1
    modifies dst
    ensures j <= k < dst.Length && dst[..j] == old(dst[..j])
    ensures dst[..k] == old(dst[..j]) + if j + 2 < dst.Length then ['\\', c] else ""
  {
    k := j;
    if j + 2 < dst.Length {
      dst[k] := '\\';
      k := k + 1;
      dst[k] := c;
      k := k + 1;
    }
  }

  // ----- reading the escaped text back -----

  datatype Text = Bad | Good(text: string)

  /** The character a two-character escape stands for (section 7 of RFC 8259). */
  function EscapedChar(c: char): Text {
    if c == '"' || c == '\\' || c == '/' then Good([c])
    else if c == 'n' then Good(['\n'])
    else if c == 't' then Good(['\t'])
    else if c == 'r' then Good(['\r'])
    else if c == 'b' then Good([8 as char])
    else if c == 'f' then Good([12 as char])
    else Bad
  }

  /** The text of a string body: bad if a quote is bare or an escape is unknown or cut off. */
  function Unescape(body: string): Text {
    if body == "" then Good("")
    else if body[0] == '"' then Bad
    else if body[0] == '\\' then
      if |body| == 1 || EscapedChar(body[1]).Bad? || Unescape(body[2..]).Bad? then Bad
      else Good(EscapedChar(body[1]).text + Unescape(body[2..]).text)
    else if Unescape(body[1..]).Bad? then Bad
    else Good([body[0]] + Unescape(body[1..]).text)
  }

  lemma UnescapePlain(c: char, rest: string)
    requires c != '"' && c != '\\'
    ensures Unescape([c] + rest) == if Unescape(rest).Bad? then Bad else Good([c] + Unescape(rest).text)
  {
    assert ([c] + rest)[1..] == rest;
  }

  lemma UnescapePair(d: char, rest: string)
    requires EscapedChar(d).Good?
    ensures Unescape(['\\', d] + rest)
      == if Unescape(rest).Bad? then Bad else Good(EscapedChar(d).text + Unescape(rest).text)
  {
    assert (['\\', d] + rest)[2..] == rest;
  }

  lemma UnescapeToken(c: char, rest: string)
    ensures Unescape(Token(c) + rest)
      == if Unescape(rest).Bad? then Bad else Good([c] + Unescape(rest).text)
  {
    if |Token(c)| == 1 {
      UnescapePlain(c, rest);
    } else {
      UnescapePair(Token(c)[1], rest);
      assert Token(c) == ['\\', Token(c)[1]];
    }
  }

  /** Room for everything: nothing is left out. */
  lemma {:induction false} EmitEverything(s: string, room: nat)
    requires |EscapeAll(s)| <= room
    ensures Emit(s, room) == EscapeAll(s)
  {
    if s != "" { EmitEverything(s[1..], room - |Token(s[0])|); }
  }

  lemma {:induction false} UnescapeAll(s: string)
    ensures Unescape(EscapeAll(s)) == Good(s)
  {
    if s != "" {
      UnescapeAll(s[1..]);
      UnescapeToken(s[0], EscapeAll(s[1..]));
    }
  }

  /** Round trip: when the escaped text fits, reading it back gives the input without its ANSI sequences. */
  lemma FittingRoundTrip(src: string, size: nat)
    requires size >= 1 && |EscapeAll(Strip(src, 0))| < size
    ensures Unescape(Emit(Strip(src, 0), size - 1)) == Good(Strip(src, 0))
  {
    EmitEverything(Strip(src, 0), size - 1);
    UnescapeAll(Strip(src, 0));
  }

  /** What a full buffer still takes: nothing, or one plain character into its last place. */
  lemma {:induction false} EmitLast(s: string, room: nat) returns (m: nat)
    requires room <= 1
    ensures m <= |s|
    ensures if m < |s| then room == 1 && |Token(s[m])| == 1 && Emit(s, room) == [s[m]] else Emit(s, room) == ""
  {
    if s == "" || room == 0 {
      m := |s|;
    } else if |Token(s[0])| == 1 {
      m := 0;
      assert Emit(s[1..], 0) == "";
    } else {
      m := EmitLast(s[1..], room);
      m := m + 1;
    }
  }

  /** What can be read back: the first `k` characters and, when `m < |s|`, character `m`. */
  function Kept(s: string, k: nat, m: nat): string
    requires k <= m <= |s|
  {
    s[..k] + if m < |s| then [s[m]] else ""
  }

  lemma KeptOneMore(s: string, k: nat, m: nat)
    requires s != "" && k <= m <= |s| - 1
    ensures Kept(s, k + 1, m + 1) == [s[0]] + Kept(s[1..], k, m)
  {
    assert s[..k + 1] == [s[0]] + s[1..][..k];
  }

  /**
   Truncation: whatever the room, the output reads back as a prefix of the text, plus at
   most one later plain character; it is cut only when at most one place was left.
   */
  lemma {:induction false} TruncatedReadsBack(s: string, room: nat) returns (k: nat, m: nat)
    ensures k <= m <= |s|
    ensures Unescape(Emit(s, room)) == Good(Kept(s, k, m))
    ensures m < |s| ==> |Token(s[m])| == 1 && |Emit(s, room)| == room
    ensures k < |s| ==> |Emit(s, room)| + 1 >= room
  {
    if s == "" || room == 0 {
      k, m := 0, |s|;
      assert s[..0] == "";
    } else if |Token(s[0])| <= room {
      var left := room - |Token(s[0])|;
      k, m := TruncatedReadsBack(s[1..], left);
      TruncatedNext(s, room, k, m);
      k, m := k + 1, m + 1;
    } else {
      k := 0;
      m := FullReadsBack(s, room);
    }
  }

  /** One more token in front. */
  lemma TruncatedNext(s: string, room: nat, k: nat, m: nat)
    requires s != "" && |Token(s[0])| <= room && k <= m <= |s| - 1
    requires Unescape(Emit(s[1..], room - |Token(s[0])|)) == Good(Kept(s[1..], k, m))
    ensures Unescape(Emit(s, room)) == Good(Kept(s, k + 1, m + 1))
    ensures |Emit(s, room)| == |Token(s[0])| + |Emit(s[1..], room - |Token(s[0])|)|
  {
    EmitFitting(s, room);
    UnescapeToken(s[0], Emit(s[1..], room - |Token(s[0])|));
    KeptOneMore(s, k, m);
  }

  lemma EmitFitting(s: string, room: nat)
    requires s != "" && |Token(s[0])| <= room
    ensures Emit(s, room) == Token(s[0]) + Emit(s[1..], room - |Token(s[0])|)
  {
  }

  lemma FullReadsBack(s: string, room: nat) returns (m: nat)
    requires s != "" && 0 < room < |Token(s[0])|
    ensures m <= |s| && Unescape(Emit(s, room)) == Good(Kept(s, 0, m))
    ensures m < |s| ==> |Token(s[m])| == 1 && |Emit(s, room)| == room
    ensures |Emit(s, room)| + 1 >= room
  {
    m := EmitLast(s, room);
    assert s[..0] == "";
    if m < |s| {
      UnescapeToken(s[m], "");
      assert Token(s[m]) + "" == [s[m]];
    }
  }

  // ----- strict JSON -----

  predicate IsControl(c: char) { c < ' ' }

  /** A string body in the strict sense: readable, and free of raw control characters. */
  predicate StrictBody(body: string) {
    Unescape(body).Good? && forall c :: c in body ==> !IsControl(c)
  }

  predicate Representable(c: char) { !IsControl(c) || c == '\n' || c == '\t' || c == '\r' }

  lemma {:induction false} EscapeAllControls(s: string)
    ensures (forall c :: c in EscapeAll(s) ==> !IsControl(c)) <==> (forall c :: c in s ==> Representable(c))
  {
    if s != "" {
      EscapeAllControls(s[1..]);
      TokenControls(s[0]);
      assert s == [s[0]] + s[1..];
      assert forall c :: c in EscapeAll(s) <==> c in Token(s[0]) || c in EscapeAll(s[1..]);
      assert forall c :: c in s <==> c == s[0] || c in s[1..];
    }
  }

  lemma TokenControls(c: char)
    ensures (forall d :: d in Token(c) ==> !IsControl(d)) <==> Representable(c)
  {
    assert Token(c)[0] in Token(c);
  }

  /**
   Only three of the control characters are escaped, so a fitting output is a JSON string
   body exactly when the stripped text has no other control character.
   */
  lemma FittingIsStrict(src: string, size: nat)
    requires size >= 1 && |EscapeAll(Strip(src, 0))| < size
    ensures StrictBody(Emit(Strip(src, 0), size - 1))
       <==> forall c :: c in Strip(src, 0) ==> Representable(c)
  {
    EmitEverything(Strip(src, 0), size - 1);
    FittingRoundTrip(src, size);
    EscapeAllControls(Strip(src, 0));
  }

  // ----- what the buffer holds -----

  predicate AllRepresentable(s: string) { forall c :: c in s ==> Representable(c) }

  /**
   The string body `out` read back: always readable; when everything fits it is the text
   without its ANSI sequences, and strict JSON exactly if that text has no other control character.
   */
  predicate ReadsBack(out: string, src: string, size: nat) {
    var text := Strip(src, 0);
    && Unescape(out).Good?
    && (|EscapeAll(text)| < size ==>
          Unescape(out) == Good(text) && (StrictBody(out) <==> AllRepresentable(text)))
  }

  lemma EmitReadsBack(src: string, size: nat)
    requires size >= 1
    ensures ReadsBack(Emit(Strip(src, 0), size - 1), src, size)
  {
    var k, m := TruncatedReadsBack(Strip(src, 0), size - 1);
    if |EscapeAll(Strip(src, 0))| < size {
      FittingRoundTrip(src, size);
      FittingIsStrict(src, size);
    }
  }

  /** Two characters that open a sequence and never close it: with room for eight, the index runs over the end. */
  lemma UnclosedOverruns()
    ensures !Closed([ESC, '['], 0) && |Emit(Strip([ESC, '['], 0), 7)| < 7
  {
    assert AnsiEnd([ESC, '['], 2) == 2;
  }

  /** A control character without an escape is copied as it is. */
  lemma BellIsNotStrict()
    ensures var bell := [7 as char];
      Emit(Strip(bell, 0), 7) == bell && Unescape(bell) == Good(bell) && !StrictBody(bell)
  {
    var bell := [7 as char];
    assert Strip(bell, 0) == bell && bell[1..] == "";
    assert bell[0] in bell;
  }
}
