/** The line grammar of the configuration file, and what loading a file gives. */
module ConfigParser {
  import opened Machine

  datatype Option<T> = None | Some(value: T)

  // ----- trimming -----

  /** The six characters that count as padding. */
  lemma SixSpaces(c: char)
    ensures IsSpace(c) <==> c as int in {9, 10, 11, 12, 13, 32}
  {
  }

  predicate Padding(s: string) { forall i :: 0 <= i < |s| ==> IsSpace(s[i]) }

  /** No padding at either end. */
  predicate Tight(s: string) { s != "" ==> !IsSpace(s[0]) && !IsSpace(s[|s| - 1]) }

  function TrimLeft(s: string): string {
    if s != "" && IsSpace(s[0]) then TrimLeft(s[1..]) else s
  }

  function TrimRight(s: string): string {
    if s != "" && IsSpace(s[|s| - 1]) then TrimRight(s[..|s| - 1]) else s
  }

  function Trim(s: string): string { TrimRight(TrimLeft(s)) }

  lemma LeftStep(str: string, start: nat)
    requires start < |str| && IsSpace(str[start])
    ensures TrimLeft(str[start..]) == TrimLeft(str[start + 1..])
  {
    assert str[start..][1..] == str[start + 1..];
  }

  lemma RightStep(str: string, start: nat, end: nat)
    requires start < end <= |str| && IsSpace(str[end - 1])
    ensures TrimRight(str[start..end]) == TrimRight(str[start..end - 1])
  {
    assert str[start..end][..end - start - 1] == str[start..end - 1];
  }

  /** The first loop: where the text starts. */
  method SkipLeft(str: string) returns (start: nat)
    ensures start <= |str| && str[start..] == TrimLeft(str)
  {
    start := 0;
    assert str[0..] == str;
    while start < |str| && IsSpace(str[start])
      invariant start <= |str| && TrimLeft(str[start..]) == TrimLeft(str)
    {
      LeftStep(str, start);
      start := start + 1;
    }
  }

  /** The second loop: where it ends. */
  method SkipRight(str: string, start: nat) returns (end: nat)
    requires start <= |str|
    ensures start <= end <= |str| && str[start..end] == TrimRight(str[start..])
  {
    end := |str|;
    assert str[start..|str|] == str[start..];
    while end > start && IsSpace(str[end - 1])
      invariant start <= end <= |str| && TrimRight(str[start..end]) == TrimRight(str[start..])
    {
      RightStep(str, start, end);
      end := end - 1;
    }
  }

  method TrimText(str: string) returns (t: string)
    ensures t == Trim(str)
  {
    var start := SkipLeft(str);
    var end := SkipRight(str, start);
    t := str[start..end];
  }

  lemma {:induction false} LeftSplits(s: string) returns (p: string)
    ensures Padding(p) && s == p + TrimLeft(s)
    ensures TrimLeft(s) != "" ==> !IsSpace(TrimLeft(s)[0])
  {
    if s != "" && IsSpace(s[0]) {
      p := LeftSplits(s[1..]);
      assert s == [s[0]] + s[1..];
      p := [s[0]] + p;
    } else {
      p := "";
    }
  }

  lemma {:induction false} RightSplits(s: string) returns (p: string)
    ensures Padding(p) && s == TrimRight(s) + p
    ensures TrimRight(s) != "" ==> !IsSpace(TrimRight(s)[|TrimRight(s)| - 1])
  {
    if s != "" && IsSpace(s[|s| - 1]) {
      p := RightSplits(s[..|s| - 1]);
      assert s == s[..|s| - 1] + [s[|s| - 1]];
      p := p + [s[|s| - 1]];
    } else {
      p := "";
    }
  }

  /** Trimming takes padding off both ends and nothing else. */
  lemma TrimSplits(s: string) returns (p: string, q: string)
    ensures Padding(p) && Padding(q) && Tight(Trim(s)) && s == p + Trim(s) + q
  {
    p := LeftSplits(s);
    q := RightSplits(TrimLeft(s));
    if Trim(s) != "" {
      assert TrimLeft(s)[0] == Trim(s)[0];
    }
  }

  lemma {:induction false} TrimLeftPadded(p: string, s: string)
    requires Padding(p)
    ensures TrimLeft(p + s) == TrimLeft(s)
  {
    if p == "" {
      assert p + s == s;
    } else {
      assert (p + s)[1..] == p[1..] + s;
      TrimLeftPadded(p[1..], s);
    }
  }

  lemma {:induction false} TrimRightPadded(s: string, q: string)
    requires Padding(q)
    ensures TrimRight(s + q) == TrimRight(s)
  {
    if q == "" {
      assert s + q == s;
    } else {
      assert (s + q)[..|s + q| - 1] == s + q[..|q| - 1];
      TrimRightPadded(s, q[..|q| - 1]);
    }
  }

  lemma {:induction false} TrimAppended(s: string, q: string)
    requires Padding(q)
    ensures Trim(s + q) == Trim(s)
  {
    if s == "" {
      assert s + q == q;
      PaddingVanishes(q);
    } else if IsSpace(s[0]) {
      assert (s + q)[1..] == s[1..] + q;
      TrimAppended(s[1..], q);
    } else {
      TrimRightPadded(s, q);
    }
  }

  lemma PaddingVanishes(q: string)
    requires Padding(q)
    ensures Trim(q) == ""
  {
    TrimLeftPadded(q, "");
    assert q + "" == q;
  }

  /** Padding around a text does not change what trimming gives. */
  lemma TrimPadded(p: string, s: string, q: string)
    requires Padding(p) && Padding(q)
    ensures Trim(p + s + q) == Trim(s)
  {
    assert p + s + q == p + (s + q);
    TrimLeftPadded(p, s + q);
    TrimAppended(s, q);
  }

  predicate Around(text: string, p: string, core: string, q: string) {
    Padding(p) && Padding(q) && text == p + core + q
  }

  ghost predicate Padded(text: string, core: string) { exists p, q :: Around(text, p, core, q) }

  /** Trimming finds the tight text inside the padding, and only that. */
  lemma TrimFindsCore(text: string, core: string)
    ensures Padded(text, core) && Tight(core) <==> Trim(text) == core
  {
    var p, q := TrimSplits(text);
    assert Around(text, p, Trim(text), q);
    if Padded(text, core) && Tight(core) {
      var p, q :| Around(text, p, core, q);
      TrimPadded(p, core, q);
      TightIsTrimmed(core);
    }
  }

  /** Only what is not padding counts. */
  lemma PaddedHas(text: string, core: string, c: char)
    requires Padded(text, core) && !IsSpace(c)
    ensures c in text <==> c in core
  {
    var p, q :| Around(text, p, core, q);
    forall i | 0 <= i < |core| ensures core[i] in text {
      assert text[|p| + i] == core[i];
    }
  }

  lemma TightIsTrimmed(s: string)
    requires Tight(s)
    ensures Trim(s) == s
  {
  }

  // ----- one line -----

  /** The position of the first `c`, or the length if there is none. */
  function Find(s: string, c: char): (k: nat)
    ensures k <= |s| && (k < |s| ==> s[k] == c)
    ensures forall i :: 0 <= i < k ==> s[i] != c
  {
    if s == "" || s[0] == c then 0 else 1 + Find(s[1..], c)
  }

  lemma FindIn(a: string, c: char, b: string)
    requires c !in a
    ensures Find(a + b, c) == |a| + Find(b, c)
  {
    var k := Find(a + b, c);
    assert forall i :: 0 <= i < |a| ==> (a + b)[i] == a[i];
    assert forall i :: 0 <= i < |b| ==> b[i] == (a + b)[|a| + i];
  }

  function Until(s: string, c: char): string { s[..Find(s, c)] }

  datatype Entry = Entry(key: string, value: string)

  /** The key and the value a line may carry. */
  predicate Readable(key: string, value: string) {
    && key != "" && Tight(key) && '=' !in key && key[0] != '#'
    && value != "" && Tight(value) && '#' !in value
  }

  /** The line is the padded key, an equals sign, the padded value and then nothing or a comment. */
  ghost predicate Written(line: string, e: Entry, left: string, text: string, comment: string) {
    && Readable(e.key, e.value)
    && Padded(left, e.key) && Padded(text, e.value)
    && (comment == "" || comment[0] == '#')
    && line == left + ("=" + (text + comment))
  }

  /** What a line says, read without trimming it first. */
  function Parse(line: string): Option<Entry> {
    var eq := Find(line, '=');
    if eq == |line| then None
    else
      Accepted(Trim(line[..eq]), Trim(Until(line[eq + 1..], '#')))
  }

  /** A key and a value, unless one is empty or the key starts a comment. */
  function Accepted(key: string, value: string): Option<Entry> {
    if key == "" || key[0] == '#' || value == "" then None else Some(Entry(key, value))
  }

  /** A line is accepted exactly when it is written in the grammar, and then it says that key and value. */
  lemma Grammar(line: string, e: Entry)
    ensures Parse(line) == Some(e) <==> exists left, text, comment :: Written(line, e, left, text, comment)
  {
    if Parse(line) == Some(e) {
      var left, text, comment := Parts(line, e);
    }
    forall left, text, comment | Written(line, e, left, text, comment) ensures Parse(line) == Some(e) {
      Accepts(line, e, left, text, comment);
    }
  }

  /** Where a line is split. */
  lemma SplitAt(line: string, left: string, right: string)
    requires line == left + ("=" + right) && '=' !in left
    ensures Find(line, '=') == |left| && line[..|left|] == left && line[|left| + 1..] == right
  {
    FindIn(left, '=', "=" + right);
  }

  lemma Splits(line: string) returns (left: string, right: string)
    requires Find(line, '=') < |line|
    ensures line == left + ("=" + right) && '=' !in left
    ensures left == line[..Find(line, '=')] && right == line[Find(line, '=') + 1..]
  {
    left, right := line[..Find(line, '=')], line[Find(line, '=') + 1..];
  }

  /** Where a comment starts. */
  lemma CutAt(text: string, comment: string)
    requires '#' !in text && (comment == "" || comment[0] == '#')
    ensures Until(text + comment, '#') == text
  {
    FindIn(text, '#', comment);
  }

  lemma Cuts(right: string) returns (text: string, comment: string)
    ensures right == text + comment && '#' !in text && text == Until(right, '#')
    ensures comment == "" || comment[0] == '#'
  {
    text, comment := Until(right, '#'), right[Find(right, '#')..];
  }

  lemma Parts(line: string, e: Entry) returns (left: string, text: string, comment: string)
    requires Parse(line) == Some(e)
    ensures Written(line, e, left, text, comment)
  {
    var right;
    left, right := Splits(line);
    text, comment := Cuts(right);
    TrimFindsCore(left, e.key);
    TrimFindsCore(text, e.value);
    PaddedHas(left, e.key, '=');
    PaddedHas(text, e.value, '#');
  }

  lemma Accepts(line: string, e: Entry, left: string, text: string, comment: string)
    requires Written(line, e, left, text, comment)
    ensures Parse(line) == Some(e)
  {
    PaddedHas(left, e.key, '=');
    PaddedHas(text, e.value, '#');
    SplitAt(line, left, text + comment);
    CutAt(text, comment);
    TrimFindsCore(left, e.key);
    TrimFindsCore(text, e.value);
  }

  lemma FindEarly(s: string, q: string, c: char)
    requires c in s
    ensures Find(s + q, c) == Find(s, c) && Until(s + q, c) == Until(s, c)
  {
    assert forall i :: 0 <= i < |s| ==> (s + q)[i] == s[i];
  }

  lemma CutPadded(p: string, t: string, q: string)
    requires Padding(p) && '#' in t
    ensures Until(p + t + q, '#') == p + Until(t, '#')
  {
    FindIn(p, '#', t);
    FindEarly(p + t, q, '#');
  }

  /** Trimming before the comment is cut off makes no difference once the rest is trimmed. */
  lemma CutThenTrim(x: string)
    ensures Trim(Until(Trim(x), '#')) == Trim(Until(x, '#'))
  {
    var p, q := TrimSplits(x);
    var t := Trim(x);
    assert Around(x, p, t, q);
    if '#' in t {
      CutPadded(p, t, q);
      TrimLeftPadded(p, Until(t, '#'));
    } else {
      PaddedHas(x, t, '#');
      assert Until(x, '#') == x && Until(t, '#') == t;
      TightIsTrimmed(t);
    }
  }

  /** Padding around a whole line changes nothing. */
  lemma PaddingAround(p: string, t: string, q: string)
    requires Padding(p) && Padding(q)
    ensures Parse(p + t + q) == Parse(t)
  {
    assert Around(p + t + q, p, t, q);
    PaddedHas(p + t + q, t, '=');
    if '=' in t {
      var left, right := Splits(t);
      PaddingOutside(p, left, right, q);
    }
  }

  lemma ParseSplit(left: string, right: string)
    requires '=' !in left
    ensures Parse(left + ("=" + right)) == Accepted(Trim(left), Trim(Until(right, '#')))
  {
    SplitAt(left + ("=" + right), left, right);
  }

  lemma PaddingOutside(p: string, left: string, right: string, q: string)
    requires Padding(p) && Padding(q) && '=' !in left
    ensures Parse(p + (left + ("=" + right)) + q) == Parse(left + ("=" + right))
  {
    assert p + (left + ("=" + right)) + q == (p + left) + ("=" + (right + q));
    ParseSplit(left, right);
    ParseSplit(p + left, right + q);
    TrimLeftPadded(p, left);
    TrimAppended(right, q);
    CutThenTrim(right);
    CutThenTrim(right + q);
  }

  lemma FirstIsKept(s: string)
    requires s != "" && !IsSpace(s[0])
    ensures Trim(s) != "" && Trim(s)[0] == s[0]
  {
    var p, q := TrimSplits(s);
  }

  /** Reading the trimmed line is reading the line, and a comment line says nothing. */
  lemma TrimFirst(line: string)
    ensures var t := Trim(line);
            Parse(line) == if t == "" || t[0] == '#' || Find(t, '=') == |t| then None else Sides(t)
  {
    var t := Trim(line);
    var p, q := TrimSplits(line);
    PaddingAround(p, t, q);
    if t != "" {
      var eq := Find(t, '=');
      if 0 < eq {
        FirstIsKept(t[..eq]);
      }
      if eq < |t| {
        CutThenTrim(t[eq + 1..]);
      }
    }
  }

  /** The parts on both sides of the equals sign, trimmed before the comment is cut off as well as after. */
  function Sides(t: string): Option<Entry>
    requires Find(t, '=') < |t|
  {
    var eq := Find(t, '=');
    var key, value := Trim(t[..eq]), Trim(Until(Trim(t[eq + 1..]), '#'));
    if key == "" || value == "" then None else Some(Entry(key, value))
  }

  method WithoutComment(text: string) returns (value: string)
    requires Tight(text)
    ensures value == Trim(Until(text, '#'))
  {
    value := text;
    var comment := Find(value, '#');
    if comment < |value| {
      value := TrimText(value[..comment]);
    } else {
      assert Until(text, '#') == text;
      TightIsTrimmed(text);
    }
  }

  /** What the parser does: trim, split, trim both sides, cut the comment, trim once more. */
  method ParseLine(line: string) returns (parsed: Option<Entry>)
    ensures parsed == Parse(line)
  {
    var trimmed := TrimText(line);
    TrimFirst(line);
    if trimmed == "" || trimmed[0] == '#' {
      return None;
    }
    var eq := Find(trimmed, '=');
    if eq == |trimmed| {
      return None;
    }
    var key := TrimText(trimmed[..eq]);
    var value := TrimText(trimmed[eq + 1..]);
    var p, q := TrimSplits(trimmed[eq + 1..]);
    value := WithoutComment(value);
    parsed := if key == "" || value == "" then None else Some(Entry(key, value));
  }
}
