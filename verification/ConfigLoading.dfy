/** Loading a configuration file: what its entries set, in which order, and when loading fails. */
module ConfigLoading {
  import opened ConfigParser
  import opened Machine

  // ----- numbers in text -----

  predicate IsDigit(c: char) { '0' <= c <= '9' }

  predicate AllDigits(s: string) { forall i :: 0 <= i < |s| ==> IsDigit(s[i]) }

  /** How many digits a text starts with. */
  function DigitRun(s: string): (k: nat)
    ensures k <= |s| && AllDigits(s[..k]) && (k < |s| ==> !IsDigit(s[k]))
  {
    if s == "" || !IsDigit(s[0]) then 0
    else
      assert forall i :: 0 < i < |s| ==> s[i] == s[1..][i - 1];
      1 + DigitRun(s[1..])
  }

  function Decimal(ds: string): nat
    requires AllDigits(ds)
  {
    if ds == "" then 0 else 10 * Decimal(ds[..|ds| - 1]) + (ds[|ds| - 1] - '0') as nat
  }

  /** The int a sign and digits stand for, if there are digits and an int can hold it. */
  function Signed(negative: bool, ds: string): Option<int>
    requires AllDigits(ds)
  {
    var n: int := Decimal(ds);
    var m := if negative then -n else n;
    if ds == "" || m < INT_MIN || INT_MAX < m then None else Some(m)
  }

  /** The conversion of the standard library: no digits, or a number no int holds, is an error; the rest is not read. */
  function Stoi(s: string): Option<int> {
    var t := TrimLeft(s);
    var u := if t != "" && (t[0] == '-' || t[0] == '+') then t[1..] else t;
    Signed(t != "" && t[0] == '-', u[..DigitRun(u)])
  }

  function ToDigits(n: nat): string {
    (if n < 10 then "" else ToDigits(n / 10)) + [(n % 10) as char + '0']
  }

  function ToText(n: int): string { if n < 0 then "-" + ToDigits(-n) else ToDigits(n) }

  lemma {:induction false} DigitsMean(n: nat)
    ensures ToDigits(n) != "" && AllDigits(ToDigits(n)) && Decimal(ToDigits(n)) == n
  {
    if n >= 10 {
      DigitsMean(n / 10);
      assert ToDigits(n)[..|ToDigits(n)| - 1] == ToDigits(n / 10);
    }
  }

  lemma RunOf(ds: string, rest: string)
    requires AllDigits(ds) && (rest == "" || !IsDigit(rest[0]))
    ensures DigitRun(ds + rest) == |ds| && (ds + rest)[..|ds|] == ds
  {
    var s, k := ds + rest, DigitRun(ds + rest);
    assert forall i :: 0 <= i < k ==> IsDigit(s[..k][i]);
    assert |ds| < |s| ==> s[|ds|] == rest[0];
  }

  /** A text without a digit after its padding and sign is no number. */
  lemma StoiRejects(pad: string, sign: Sign, rest: string)
    requires Padding(pad) && (rest == "" || !IsDigit(rest[0]))
    requires sign.NoSign? ==> rest == "" || (!IsSpace(rest[0]) && rest[0] != '+' && rest[0] != '-')
    ensures Stoi(pad + (SignText(sign) + rest)) == None
  {
    var t := SignText(sign) + rest;
    TrimLeftPadded(pad, t);
    if sign.NoSign? {
      assert t == rest;
    } else {
      assert t[1..] == rest && t[0] == SignText(sign)[0];
    }
    assert TrimLeft(t) == t;
  }

  datatype Sign = NoSign | Plus | Minus

  function SignText(sign: Sign): string {
    match sign case NoSign => [] case Plus => ['+'] case Minus => ['-']
  }

  /** A number is read whatever padding, plus sign or following text surrounds its digits. */
  lemma StoiReads(pad: string, sign: Sign, ds: string, rest: string)
    requires Padding(pad)
    requires ds != "" && AllDigits(ds) && (rest == "" || !IsDigit(rest[0]))
    ensures Stoi(pad + (SignText(sign) + (ds + rest))) == Signed(sign.Minus?, ds)
  {
    var u := ds + rest;
    var t := SignText(sign) + u;
    assert u[0] == ds[0] && IsDigit(ds[0]);
    TrimLeftPadded(pad, t);
    RunOf(ds, rest);
    if sign.NoSign? {
      assert t == u;
    } else {
      assert t[1..] == u && t[0] == SignText(sign)[0];
    }
    assert !IsSpace(t[0]) && TrimLeft(t) == t;
  }

  lemma TextParts(n: int)
    ensures ToText(n) == [] + (SignText(if n < 0 then Minus else NoSign) + (ToDigits(if n < 0 then -n else n) + []))
  {
  }

  lemma SignedMeans(n: int, m: nat)
    requires m == if n < 0 then -n else n
    ensures ToDigits(m) != "" && AllDigits(ToDigits(m))
    ensures Signed(n < 0, ToDigits(m)) == if INT_MIN <= n <= INT_MAX then Some(n) else None
  {
    DigitsMean(m);
  }

  /** A written number is read back exactly when an int can hold it. */
  lemma NumbersSurvive(n: int)
    ensures Stoi(ToText(n)) == if INT_MIN <= n <= INT_MAX then Some(n) else None
  {
    var m := if n < 0 then -n else n;
    SignedMeans(n, m);
    TextParts(n);
    StoiReads([], if n < 0 then Minus else NoSign, ToDigits(m), []);
  }

  // ----- the settings -----

  datatype Number = Rounds | ElectionStart | ElectionBackoff | ElectionMax | SpawnEnabled | SpawnCheckRound
    | PruneEnabled | PruneInterval | PruneGrace | MinAnalysts | PruneRespawn | OllamaTimeout

  datatype Text = JudgeModel | ApiType | OllamaApiUrl | ClaudeModel | ClaudeApiKey
    | GoogleModel | GoogleApiKey | GoogleEndpoint

  /** What a key stands for. */
  datatype Setting = IntOf(number: Number) | TextOf(text: Text) | Model | OllamaUrl

  /** The keys a file may use. The theorems hold for every such table. */
  type Table = map<string, Setting>

  const SETTINGS: Table := map[
    "election_start" := IntOf(ElectionStart),
    "election_backoff" := IntOf(ElectionBackoff),
    "election_max" := IntOf(ElectionMax),
    "judge_model" := TextOf(JudgeModel),
    "spawn_enabled" := IntOf(SpawnEnabled),
    "spawn_check_round" := IntOf(SpawnCheckRound),
    "prune_enabled" := IntOf(PruneEnabled),
    "prune_interval" := IntOf(PruneInterval),
    "prune_grace" := IntOf(PruneGrace),
    "min_analysts" := IntOf(MinAnalysts),
    "prune_respawn" := IntOf(PruneRespawn),
    "model" := Model,
    "ollama_url" := OllamaUrl,
    "ollama_timeout" := IntOf(OllamaTimeout),
    "api_type" := TextOf(ApiType),
    "ollama_api_url" := TextOf(OllamaApiUrl),
    "claude_model" := TextOf(ClaudeModel),
    "claude_api_key" := TextOf(ClaudeApiKey),
    "google_agy_model" := TextOf(GoogleModel),
    "google_agy_api_key" := TextOf(GoogleApiKey),
    "google_agy_endpoint" := TextOf(GoogleEndpoint),
    "rounds" := IntOf(Rounds)]

  datatype Values = Values(
    numbers: map<Number, int>,
    texts: map<Text, string>,
    models: seq<string>,
    ollamaUrls: seq<string>)

  /** The name each number, text and list goes by in a file. */
  function NumberKey(n: Number): string {
    match n
    case Rounds => "rounds"
    case ElectionStart => "election_start"
    case ElectionBackoff => "election_backoff"
    case ElectionMax => "election_max"
    case SpawnEnabled => "spawn_enabled"
    case SpawnCheckRound => "spawn_check_round"
    case PruneEnabled => "prune_enabled"
    case PruneInterval => "prune_interval"
    case PruneGrace => "prune_grace"
    case MinAnalysts => "min_analysts"
    case PruneRespawn => "prune_respawn"
    case OllamaTimeout => "ollama_timeout"
  }

  function TextKey(t: Text): string {
    match t
    case JudgeModel => "judge_model"
    case ApiType => "api_type"
    case OllamaApiUrl => "ollama_api_url"
    case ClaudeModel => "claude_model"
    case ClaudeApiKey => "claude_api_key"
    case GoogleModel => "google_agy_model"
    case GoogleApiKey => "google_agy_api_key"
    case GoogleEndpoint => "google_agy_endpoint"
  }

  predicate IsKeyOf(name: string, s: Setting) { name in SETTINGS && SETTINGS[name] == s }

  /** Every setting can be set, under its own name; the two lists have one key each. */
  lemma NumberKeys(n: Number)
    ensures IsKeyOf(NumberKey(n), IntOf(n))
  {
  }

  lemma TextKeys(t: Text)
    ensures IsKeyOf(TextKey(t), TextOf(t))
  {
  }

  lemma ListKeys()
    ensures IsKeyOf("model", Model) && IsKeyOf("ollama_url", OllamaUrl)
  {
  }

  /** No other name sets anything. */
  lemma NoOtherKey(name: string)
    requires name in SETTINGS
    ensures match SETTINGS[name]
      case IntOf(n) => name == NumberKey(n)
      case TextOf(t) => name == TextKey(t)
      case Model => name == "model"
      case OllamaUrl => name == "ollama_url"
  {
  }

  const DEFAULTS := Values(
    map[Rounds := 4, ElectionStart := 1, ElectionBackoff := 2, ElectionMax := 8, SpawnEnabled := 1,
        SpawnCheckRound := 1, PruneEnabled := 1, PruneInterval := 3, PruneGrace := 2, MinAnalysts := 2,
        PruneRespawn := 1, OllamaTimeout := 120],
    map[JudgeModel := "llama3.2", ApiType := "ollama", OllamaApiUrl := "http://localhost:11434/api/chat",
        ClaudeModel := "claude-3-5-sonnet-20241022", ClaudeApiKey := "",
        GoogleModel := "", GoogleApiKey := "", GoogleEndpoint := ""],
    [],
    [])

  predicate Means(keys: Table, e: Entry, s: Setting) { e.key in keys && keys[e.key] == s }

  /** An entry for a number that cannot be read as one. */
  predicate Malformed(keys: Table, e: Entry) {
    e.key in keys && keys[e.key].IntOf? && Stoi(e.value) == None
  }

  /** What one entry does, or None if the conversion throws. */
  function Apply(keys: Table, c: Values, e: Entry): Option<Values> {
    if Malformed(keys, e) then None
    else if e.key !in keys then Some(c)
    else match keys[e.key]
      case IntOf(n) => Some(c.(numbers := c.numbers[n := Stoi(e.value).value]))
      case TextOf(t) => Some(c.(texts := c.texts[t := e.value]))
      case Model => Some(c.(models := c.models + [e.value]))
      case OllamaUrl => Some(c.(ollamaUrls := c.ollamaUrls + [e.value]))
  }

  function ApplyAll(keys: Table, c: Values, es: seq<Entry>): Option<Values> {
    if es == [] then Some(c)
    else match ApplyAll(keys, c, es[..|es| - 1])
      case None => None
      case Some(d) => Apply(keys, d, es[|es| - 1])
  }

  // ----- files -----

  function Lines(text: string): seq<string> {
    if text == "" then []
    else
      var k := Find(text, '\n');
      [text[..k]] + if k == |text| then [] else Lines(text[k + 1..])
  }

  function Said(line: string): seq<Entry> {
    match Parse(line) case None => [] case Some(e) => [e]
  }

  function Entries(lines: seq<string>): seq<Entry> {
    if lines == [] then [] else Said(lines[0]) + Entries(lines[1..])
  }

  function Print(es: seq<Entry>): string {
    if es == [] then "" else es[0].key + "=" + es[0].value + "\n" + Print(es[1..])
  }

  /** A key and value that fit on a line of their own. */
  predicate Printable(e: Entry) { Readable(e.key, e.value) && '\n' !in e.key && '\n' !in e.value }

  lemma PrintedLine(e: Entry)
    requires Printable(e)
    ensures Parse(e.key + "=" + e.value) == Some(e) && '\n' !in e.key + "=" + e.value
  {
    var line := e.key + "=" + e.value;
    assert Around(e.key, "", e.key, "") && Around(e.value, "", e.value, "");
    assert line == e.key + ("=" + (e.value + ""));
    assert Written(line, e, e.key, e.value, "");
    Grammar(line, e);
  }

  lemma PrintStep(es: seq<Entry>)
    requires es != []
    ensures Print(es) == (es[0].key + "=" + es[0].value) + ("\n" + Print(es[1..]))
  {
  }

  lemma LinesOfOne(line: string, rest: string)
    requires '\n' !in line
    ensures Lines(line + ("\n" + rest)) == [line] + Lines(rest)
  {
    FindIn(line, '\n', "\n" + rest);
    Slices(line, rest);
    LinesStep(line + ("\n" + rest), |line|);
  }

  lemma Slices(line: string, rest: string)
    ensures (line + ("\n" + rest))[..|line|] == line && (line + ("\n" + rest))[|line| + 1..] == rest
  {
  }

  lemma LinesStep(text: string, k: nat)
    requires k < |text| && Find(text, '\n') == k
    ensures Lines(text) == [text[..k]] + Lines(text[k + 1..])
  {
  }

  lemma EntriesOfOne(line: string, lines: seq<string>)
    ensures Entries([line] + lines) == Said(line) + Entries(lines)
  {
    assert ([line] + lines)[1..] == lines;
  }

  /** Lines joined with newlines, the last one with or without. */
  function Joined(lines: seq<string>, last: string): string {
    if lines == [] then last else lines[0] + ("\n" + Joined(lines[1..], last))
  }

  /** A file is read line by line, whatever the lines say; a last line without a newline counts if it is not empty. */
  lemma {:induction false} LinesOfJoined(lines: seq<string>, last: string)
    requires '\n' !in last && forall k :: 0 <= k < |lines| ==> '\n' !in lines[k]
    ensures Lines(Joined(lines, last)) == lines + if last == "" then [] else [last]
  {
    if lines == [] {
      LastLine(last);
    } else {
      LinesOfJoined(lines[1..], last);
      LinesOfOne(lines[0], Joined(lines[1..], last));
      FirstInFront(lines, if last == "" then [] else [last]);
    }
  }

  lemma FirstInFront(lines: seq<string>, rest: seq<string>)
    requires lines != []
    ensures [lines[0]] + (lines[1..] + rest) == lines + rest
  {
  }

  lemma LastLine(last: string)
    requires '\n' !in last
    ensures Lines(last) == if last == "" then [] else [last]
  {
    FindIn(last, '\n', "");
    assert last + "" == last && last[..|last|] == last;
  }

  /** Every line is read, and one that says nothing changes nothing: the entries of two stretches are added up. */
  lemma {:induction false} EntriesConcat(a: seq<string>, b: seq<string>)
    ensures Entries(a + b) == Entries(a) + Entries(b)
  {
    if a == [] {
      assert a + b == b;
    } else {
      assert (a + b)[1..] == a[1..] + b;
      EntriesConcat(a[1..], b);
    }
  }

  lemma EntriesOfLine(line: string)
    ensures Entries([line]) == match Parse(line) case None => [] case Some(e) => [e]
  {
    assert [line] == [line] + [];
    EntriesOfOne(line, []);
  }

  /** Reading a printed file gives back the printed entries, each one and in order. */
  lemma {:induction false} PrintThenRead(es: seq<Entry>)
    requires forall e :: e in es ==> Printable(e)
    ensures Entries(Lines(Print(es))) == es
  {
    if es != [] {
      PrintedLine(es[0]);
      PrintThenRead(es[1..]);
      PrintStep(es);
      LinesOfOne(es[0].key + "=" + es[0].value, Print(es[1..]));
      EntriesOfOne(es[0].key + "=" + es[0].value, Lines(Print(es[1..])));
      assert es == [es[0]] + es[1..];
    }
  }

  // ----- what loading gives -----

  predicate IsLast(keys: Table, es: seq<Entry>, i: int, s: Setting) {
    0 <= i < |es| && Means(keys, es[i], s) && forall j :: i < j < |es| ==> !Means(keys, es[j], s)
  }

  predicate Unset(keys: Table, es: seq<Entry>, s: Setting) {
    forall j :: 0 <= j < |es| ==> !Means(keys, es[j], s)
  }

  /** The configuration has the value as the text says it. */
  predicate Holds(d: Values, s: Setting, value: string) {
    match s
    case IntOf(n) => n in d.numbers && Stoi(value) == Some(d.numbers[n])
    case TextOf(t) => t in d.texts && d.texts[t] == value
    case Model => d.models != [] && d.models[|d.models| - 1] == value
    case OllamaUrl => d.ollamaUrls != [] && d.ollamaUrls[|d.ollamaUrls| - 1] == value
  }

  predicate Same(c: Values, d: Values, s: Setting) {
    match s
    case IntOf(n) => (n in d.numbers <==> n in c.numbers) && (n in c.numbers ==> d.numbers[n] == c.numbers[n])
    case TextOf(t) => (t in d.texts <==> t in c.texts) && (t in c.texts ==> d.texts[t] == c.texts[t])
    case Model => d.models == c.models
    case OllamaUrl => d.ollamaUrls == c.ollamaUrls
  }

  lemma ApplyTouches(keys: Table, c: Values, e: Entry, s: Setting)
    requires Apply(keys, c, e).Some?
    ensures Means(keys, e, s) ==> Holds(Apply(keys, c, e).value, s, e.value)
    ensures !Means(keys, e, s) ==> Same(c, Apply(keys, c, e).value, s)
  {
  }

  /** The last entry for a setting decides it. */
  lemma {:induction false} LastWins(keys: Table, c: Values, es: seq<Entry>, i: int, s: Setting)
    requires ApplyAll(keys, c, es).Some? && IsLast(keys, es, i, s)
    ensures Holds(ApplyAll(keys, c, es).value, s, es[i].value)
  {
    var most := es[..|es| - 1];
    ApplyTouches(keys, ApplyAll(keys, c, most).value, es[|es| - 1], s);
    if i < |most| {
      assert forall j :: 0 <= j < |most| ==> most[j] == es[j];
      LastWins(keys, c, most, i, s);
    }
  }

  /** A setting without an entry keeps its default. */
  lemma {:induction false} UnsetStays(keys: Table, c: Values, es: seq<Entry>, s: Setting)
    requires ApplyAll(keys, c, es).Some? && Unset(keys, es, s)
    ensures Same(c, ApplyAll(keys, c, es).value, s)
  {
    if es != [] {
      var most := es[..|es| - 1];
      ApplyTouches(keys, ApplyAll(keys, c, most).value, es[|es| - 1], s);
      assert forall j :: 0 <= j < |most| ==> most[j] == es[j];
      UnsetStays(keys, c, most, s);
    }
  }

  /** The values given for a setting, in the order of the file. */
  function Given(keys: Table, es: seq<Entry>, s: Setting): seq<string> {
    if es == [] then [] else (if Means(keys, es[0], s) then [es[0].value] else []) + Given(keys, es[1..], s)
  }

  lemma {:induction false} GivenExtends(keys: Table, es: seq<Entry>, e: Entry, s: Setting)
    ensures Given(keys, es + [e], s) == Given(keys, es, s) + if Means(keys, e, s) then [e.value] else []
  {
    if es != [] {
      assert (es + [e])[1..] == es[1..] + [e];
      GivenExtends(keys, es[1..], e, s);
    }
  }

  /** Repeated models and endpoints are all kept, in the order of the file. */
  lemma {:induction false} ListsInOrder(keys: Table, c: Values, es: seq<Entry>)
    requires ApplyAll(keys, c, es).Some?
    ensures var d := ApplyAll(keys, c, es).value;
      && d.models == c.models + Given(keys, es, Model)
      && d.ollamaUrls == c.ollamaUrls + Given(keys, es, OllamaUrl)
  {
    if es != [] {
      var most, e := es[..|es| - 1], es[|es| - 1];
      ListsInOrder(keys, c, most);
      GivenExtends(keys, most, e, Model);
      GivenExtends(keys, most, e, OllamaUrl);
      assert es == most + [e];
    }
  }

  /** Loading fails exactly when some entry for a number cannot be read as one, whichever comes after it. */
  lemma {:induction false} FailsExactly(keys: Table, c: Values, es: seq<Entry>)
    ensures ApplyAll(keys, c, es) == None <==> exists i :: 0 <= i < |es| && Malformed(keys, es[i])
  {
    if es != [] {
      var most := es[..|es| - 1];
      FailsExactly(keys, c, most);
      assert forall i :: 0 <= i < |most| ==> most[i] == es[i];
    }
  }

  // ----- the environment -----

  /** What the environment, the credential files and `gcloud` give; empty where they give nothing. */
  datatype Environment = Environment(
    claudeKey: string, anthropicKey: string, claudeCliKey: string,
    googleKey: string, gcloudKey: string, googleModel: string, gcloudProject: string)

  const ENDPOINT_HEAD := "https://agy.googleapis.com/projects/"
  const ENDPOINT_TAIL := "/locations/us-central1/v1beta1"

  function TextIn(c: Values, t: Text): string { if t in c.texts then c.texts[t] else "" }

  /** The first text that is not empty. */
  function FirstGiven(texts: seq<string>): string {
    if texts == [] then "" else if texts[0] != "" then texts[0] else FirstGiven(texts[1..])
  }

  /** What the environment offers for a text. */
  function Offered(env: Environment, t: Text): string {
    match t
    case ClaudeApiKey => FirstGiven([env.claudeKey, env.anthropicKey, env.claudeCliKey])
    case GoogleApiKey => FirstGiven([env.googleKey, env.gcloudKey])
    case GoogleModel => env.googleModel
    case GoogleEndpoint =>
      if env.gcloudProject == "" then "" else ENDPOINT_HEAD + env.gcloudProject + ENDPOINT_TAIL
    case _ => ""
  }

  lemma FirstStep(texts: seq<string>)
    requires texts != []
    ensures FirstGiven(texts) == if texts[0] != "" then texts[0] else FirstGiven(texts[1..])
  {
  }

  lemma FirstOfTwo(a: string, b: string)
    ensures FirstGiven([a, b]) == if a != "" then a else b
  {
    FirstStep([a, b]);
    FirstStep([b]);
    assert [a, b][1..] == [b] && [b][1..] == [];
  }

  lemma FirstOfThree(a: string, b: string, c: string)
    ensures FirstGiven([a, b, c]) == if a != "" then a else if b != "" then b else c
  {
    FirstStep([a, b, c]);
    FirstOfTwo(b, c);
    assert [a, b, c][1..] == [b, c];
  }

  /** The sources of each key in their order. */
  lemma OffersInOrder(env: Environment)
    ensures Offered(env, ClaudeApiKey)
      == if env.claudeKey != "" then env.claudeKey else if env.anthropicKey != "" then env.anthropicKey
         else env.claudeCliKey
    ensures Offered(env, GoogleApiKey) == if env.googleKey != "" then env.googleKey else env.gcloudKey
    ensures Offered(env, GoogleModel) == env.googleModel
    ensures Offered(env, GoogleEndpoint) == "" <==> env.gcloudProject == ""
  {
    FirstOfThree(env.claudeKey, env.anthropicKey, env.claudeCliKey);
    FirstOfTwo(env.googleKey, env.gcloudKey);
  }

  /** A text is taken only where there is none. */
  function Fill(c: Values, t: Text, offer: string): Values {
    if TextIn(c, t) == "" && offer != "" then c.(texts := c.texts[t := offer]) else c
  }

  function FromEnvironment(c: Values, env: Environment): Values {
    var c1 := Fill(c, ClaudeApiKey, Offered(env, ClaudeApiKey));
    var c2 := Fill(c1, GoogleApiKey, Offered(env, GoogleApiKey));
    var c3 := Fill(c2, GoogleModel, Offered(env, GoogleModel));
    Fill(c3, GoogleEndpoint, Offered(env, GoogleEndpoint))
  }

  lemma FillOnly(c: Values, t: Text, offer: string, u: Text)
    ensures TextIn(Fill(c, t, offer), u) == if u == t && TextIn(c, t) == "" then offer else TextIn(c, u)
    ensures var d := Fill(c, t, offer);
      d.numbers == c.numbers && d.models == c.models && d.ollamaUrls == c.ollamaUrls
  {
  }

  /** The environment only fills gaps: whatever text the file or the defaults give stays, as does everything else. */
  lemma EnvironmentOnlyFills(c: Values, env: Environment, t: Text)
    ensures var d := FromEnvironment(c, env);
      && TextIn(d, t) == (if TextIn(c, t) != "" then TextIn(c, t) else Offered(env, t))
      && d.numbers == c.numbers && d.models == c.models && d.ollamaUrls == c.ollamaUrls
  {
    var c1 := Fill(c, ClaudeApiKey, Offered(env, ClaudeApiKey));
    var c2 := Fill(c1, GoogleApiKey, Offered(env, GoogleApiKey));
    var c3 := Fill(c2, GoogleModel, Offered(env, GoogleModel));
    FillOnly(c, ClaudeApiKey, Offered(env, ClaudeApiKey), t);
    FillOnly(c1, GoogleApiKey, Offered(env, GoogleApiKey), t);
    FillOnly(c2, GoogleModel, Offered(env, GoogleModel), t);
    FillOnly(c3, GoogleEndpoint, Offered(env, GoogleEndpoint), t);
  }

  // ----- the object and the file -----

  /** A configuration, changed in place entry by entry. */
  class Configuration {
    var numbers: map<Number, int>
    var texts: map<Text, string>
    var models: seq<string>
    var ollamaUrls: seq<string>

    function View(): Values
      reads this
    {
      Values(numbers, texts, models, ollamaUrls)
    }

    constructor (v: Values)
      ensures View() == v
    {
      numbers, texts, models, ollamaUrls := v.numbers, v.texts, v.models, v.ollamaUrls;
    }

    method SetValue(keys: Table, e: Entry) returns (ok: bool)
      modifies this
      ensures ok <==> !Malformed(keys, e)
      ensures if ok then Apply(keys, old(View()), e) == Some(View()) else View() == old(View())
    {
      ok := true;
      if e.key in keys {
        match keys[e.key]
        case IntOf(n) =>
          match Stoi(e.value) {
            case None => ok := false;
            case Some(k) => numbers := numbers[n := k];
          }
        case TextOf(t) => texts := texts[t := e.value];
        case Model => models := models + [e.value];
        case OllamaUrl => ollamaUrls := ollamaUrls + [e.value];
      }
    }

    method FillText(t: Text, offer: string)
      modifies this
      ensures View() == Fill(old(View()), t, offer)
    {
      if (t !in texts || texts[t] == "") && offer != "" {
        texts := texts[t := offer];
      }
    }

    method ApplyEnvironment(env: Environment)
      modifies this
      ensures View() == FromEnvironment(old(View()), env)
    {
      FillText(ClaudeApiKey, Offered(env, ClaudeApiKey));
      FillText(GoogleApiKey, Offered(env, GoogleApiKey));
      FillText(GoogleModel, Offered(env, GoogleModel));
      FillText(GoogleEndpoint, Offered(env, GoogleEndpoint));
    }
  }

  lemma {:induction false} ApplyAppend(keys: Table, c: Values, a: seq<Entry>, b: seq<Entry>)
    ensures ApplyAll(keys, c, a + b) ==
      match ApplyAll(keys, c, a) { case None => None case Some(d) => ApplyAll(keys, d, b) }
  {
    if b == [] {
      assert a + b == a;
    } else {
      assert (a + b)[..|a + b| - 1] == a + b[..|b| - 1];
      ApplyAppend(keys, c, a, b[..|b| - 1]);
    }
  }

  /** One line of the file. */
  method ApplyLine(keys: Table, config: Configuration, line: string) returns (ok: bool)
    modifies config
    ensures ApplyAll(keys, old(config.View()), Said(line)) == if ok then Some(config.View()) else None
  {
    var parsed := ParseLine(line);
    ok := true;
    if parsed.Some? {
      ok := config.SetValue(keys, parsed.value);
      assert Said(line)[..0] == [];
    }
  }

  /** Reads a text line by line onto a configuration; a malformed number ends it. */
  method ReadLines(keys: Table, config: Configuration, text: string) returns (ok: bool)
    modifies config
    ensures ApplyAll(keys, old(config.View()), Entries(Lines(text))) == if ok then Some(config.View()) else None
  {
    ghost var start := config.View();
    ok := true;
    var rest := text;
    while rest != ""
      invariant ApplyAll(keys, config.View(), Entries(Lines(rest))) == ApplyAll(keys, start, Entries(Lines(text)))
      decreases |rest|
    {
      ghost var lines, before := Lines(rest), config.View();
      var k := Find(rest, '\n');
      var line := rest[..k];
      rest := if k == |rest| then "" else rest[k + 1..];
      assert lines[0] == line && lines[1..] == Lines(rest);
      ApplyAppend(keys, before, Said(line), Entries(Lines(rest)));
      ok := ApplyLine(keys, config, line);
      if !ok {
        return;
      }
    }
  }

  /** What a file makes of the defaults; a missing file leaves them. */
  function Loaded(keys: Table, defaults: Values, file: Option<string>): Option<Values> {
    match file case None => Some(defaults) case Some(text) => ApplyAll(keys, defaults, Entries(Lines(text)))
  }

  /** Reads a file, if there is one, and then the environment; a malformed number throws before that. */
  method Load(keys: Table, defaults: Values, file: Option<string>, env: Environment)
    returns (ok: bool, config: Configuration)
    ensures fresh(config) && (ok <==> Loaded(keys, defaults, file).Some?)
    ensures ok ==> config.View() == FromEnvironment(Loaded(keys, defaults, file).value, env)
  {
    config := new Configuration(defaults);
    ok := true;
    if file.Some? {
      ok := ReadLines(keys, config, file.value);
    }
    if ok {
      config.ApplyEnvironment(env);
    }
  }

  /** The program's own keys and defaults. */
  method LoadConfiguration(file: Option<string>, env: Environment) returns (ok: bool, config: Configuration)
    ensures fresh(config) && (ok <==> Loaded(SETTINGS, DEFAULTS, file).Some?)
    ensures ok ==> config.View() == FromEnvironment(Loaded(SETTINGS, DEFAULTS, file).value, env)
  {
    ok, config := Load(SETTINGS, DEFAULTS, file, env);
  }

  /** A text in the file beats the environment. */
  lemma FileBeatsEnvironment(keys: Table, c: Values, es: seq<Entry>, i: int, t: Text, env: Environment)
    requires ApplyAll(keys, c, es).Some? && IsLast(keys, es, i, TextOf(t)) && es[i].value != ""
    ensures TextIn(FromEnvironment(ApplyAll(keys, c, es).value, env), t) == es[i].value
  {
    LastWins(keys, c, es, i, TextOf(t));
    EnvironmentOnlyFills(ApplyAll(keys, c, es).value, env, t);
  }

  /** A file with one entry for a number that is no number: loading it throws. */
  lemma MalformedEntryThrows(keys: Table, defaults: Values, e: Entry)
    requires Printable(e) && Malformed(keys, e)
    ensures Loaded(keys, defaults, Some(Print([e]))) == None
  {
    PrintThenRead([e]);
    assert Malformed(keys, [e][0]);
    FailsExactly(keys, defaults, [e]);
  }

  lemma WordIsNoNumber()
    ensures Stoi("abc") == None
  {
    assert TrimLeft("abc") == "abc";
    assert DigitRun("abc") == 0;
  }

  lemma PrintedRounds()
    ensures Printable(Entry("rounds", "abc")) && Print([Entry("rounds", "abc")]) == "rounds=abc\n"
  {
    var e := Entry("rounds", "abc");
    assert Print([e][1..]) == "";
  }

  lemma RoundsIsASetting()
    ensures "rounds" in SETTINGS && SETTINGS["rounds"] == IntOf(Rounds)
  {
  }

  /** For instance a number of rounds that is a word. */
  lemma MalformedThrows()
    ensures Loaded(SETTINGS, DEFAULTS, Some("rounds=abc\n")) == None
  {
    WordIsNoNumber();
    PrintedRounds();
    RoundsIsASetting();
    MalformedEntryThrows(SETTINGS, DEFAULTS, Entry("rounds", "abc"));
  }

  /** Loading a printed file: it fails exactly on a malformed number; otherwise the last entry for a setting decides
      it, a setting without one keeps its default, and the lists grow in the order of the file. */
  lemma PrintedFileLoads(keys: Table, defaults: Values, es: seq<Entry>)
    requires forall e :: e in es ==> Printable(e)
    ensures var loaded := ApplyAll(keys, defaults, Entries(Lines(Print(es))));
      && (loaded == None <==> exists i :: 0 <= i < |es| && Malformed(keys, es[i]))
      && (loaded.Some? ==>
            && (forall i, s :: IsLast(keys, es, i, s) ==> Holds(loaded.value, s, es[i].value))
            && (forall s :: Unset(keys, es, s) ==> Same(defaults, loaded.value, s))
            && loaded.value.models == defaults.models + Given(keys, es, Model)
            && loaded.value.ollamaUrls == defaults.ollamaUrls + Given(keys, es, OllamaUrl))
  {
    PrintThenRead(es);
    FailsExactly(keys, defaults, es);
    if ApplyAll(keys, defaults, es).Some? {
      ListsInOrder(keys, defaults, es);
      forall i, s | IsLast(keys, es, i, s) {
        LastWins(keys, defaults, es, i, s);
      }
      forall s | Unset(keys, es, s) {
        UnsetStays(keys, defaults, es, s);
      }
    }
  }
}
