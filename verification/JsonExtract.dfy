/**
 `extractJSON`: the bracket scanner that cuts the first JSON object or array out of a model's reply,
 proved against a printer for RFC 8259 texts; and its fallback for truncated replies.
 */
module JsonExtract {
  import opened Wrappers

  // ---- The scanner ----

  datatype Scan = Scan(depth: int, inString: bool, escape: bool)

  predicate Opening(c: char) { c == '{' || c == '[' }

  predicate Closing(c: char) { c == '}' || c == ']' }

  /** The scanner's variables after reading `c`. */
  function Next(st: Scan, c: char): Scan {
    if st.escape then st.(escape := false)
    else if c == '\\' then st.(escape := true)
    else if c == '"' then st.(inString := !st.inString)
    else if st.inString then st
    else if Opening(c) then st.(depth := st.depth + 1)
    else if Closing(c) then st.(depth := st.depth - 1)
    else st
  }

  /** `c` is the bracket that brings the depth back to zero. */
  predicate Ends(st: Scan, c: char) { !st.escape && !st.inString && Closing(c) && st.depth == 1 }

  const INITIAL := Scan(0, false, false)

  /** The position of the bracket that ends the value, reading `raw` from `i` on. */
  function EndFrom(raw: string, i: nat, st: Scan): (r: Option<nat>)
    requires i <= |raw|
    ensures r.Some? ==> i <= r.value < |raw|
    decreases |raw| - i
  {
    if i == |raw| then None
    else if Ends(st, raw[i]) then Some(i)
    else EndFrom(raw, i + 1, Next(st, raw[i]))
  }

  /** `raw.search(/[\[{]/)`, with the length standing for "not found". */
  function FirstOpening(raw: string): (i: nat)
    ensures i <= |raw| && (i < |raw| ==> Opening(raw[i])) && forall k :: 0 <= k < i ==> !Opening(raw[k])
  {
    if raw == "" then 0 else if Opening(raw[0]) then 0 else 1 + FirstOpening(raw[1..])
  }

  function Extract(raw: string): string {
    var start := FirstOpening(raw);
    if start == |raw| then raw
    else match EndFrom(raw, start, INITIAL)
      case Some(end) => raw[start..end + 1]
      case None => Fallback(raw)
  }

  method ExtractJSON(raw: string) returns (json: string)
    ensures json == Extract(raw)
  {
    var jsonStart := FirstOpening(raw);
    if jsonStart == |raw| { return raw; }
    var depth, inString, escape := 0, false, false;
    var i := jsonStart;
    while i < |raw|
      invariant jsonStart <= i <= |raw|
      invariant EndFrom(raw, jsonStart, INITIAL) == EndFrom(raw, i, Scan(depth, inString, escape))
    {
      var ch := raw[i];
      if escape { escape := false; i := i + 1; continue; }
      if ch == '\\' { escape := true; i := i + 1; continue; }
      if ch == '"' { inString := !inString; i := i + 1; continue; }
      if inString { i := i + 1; continue; }
      if Opening(ch) { depth := depth + 1; }
      if Closing(ch) {
        depth := depth - 1;
        if depth == 0 { return raw[jsonStart..i + 1]; }
      }
      i := i + 1;
    }
    json := Fallback(raw);
  }

  // ---- The fallback ----

  /** The characters of JavaScript's `\s`, which `trim` removes too. */
  predicate IsSpace(c: char) {
    || '\t' <= c <= '\r' || c == ' ' || c == '\U{00A0}' || c == '\U{1680}' || '\U{2000}' <= c <= '\U{200A}'
    || c == '\U{2028}' || c == '\U{2029}' || c == '\U{202F}' || c == '\U{205F}' || c == '\U{3000}' || c == '\U{FEFF}'
  }

  const TAG := "json"

  predicate FenceAt(s: string, i: nat) { i + 3 <= |s| && s[i] == '`' && s[i + 1] == '`' && s[i + 2] == '`' }

  function FirstFence(s: string, i: nat := 0): (r: Option<nat>)
    requires i <= |s|
    ensures r.Some? ==> i <= r.value && FenceAt(s, r.value) && forall k :: i <= k < r.value ==> !FenceAt(s, k)
    ensures r.None? ==> forall k: nat :: i <= k ==> !FenceAt(s, k)
    decreases |s| - i
  {
    if i == |s| then None else if FenceAt(s, i) then Some(i) else FirstFence(s, i + 1)
  }

  function SkipSpace(s: string, i: nat): (j: nat)
    requires i <= |s|
    ensures i <= j <= |s| && (j < |s| ==> !IsSpace(s[j]))
    decreases |s| - i
  {
    if i < |s| && IsSpace(s[i]) then SkipSpace(s, i + 1) else i
  }

  function BackSpace(s: string, i: nat): (j: nat)
    requires i <= |s|
    ensures j <= i && (j > 0 ==> !IsSpace(s[j - 1]))
  {
    if i > 0 && IsSpace(s[i - 1]) then BackSpace(s, i - 1) else i
  }

  /** Removes a `json` tag and the white space after it. */
  function StripTag(s: string): string {
    var text := if TAG <= s then s[|TAG|..] else s;
    text[SkipSpace(text, 0)..]
  }

  /** Removes everything up to the first code fence, its tag and the white space after it. */
  function StripOpening(s: string): string {
    match FirstFence(s) case None => s case Some(i) => StripTag(s[i + 3..])
  }

  /** Removes the next code fence, the white space before it and everything after it. */
  function StripClosing(s: string): string {
    match FirstFence(s) case None => s case Some(i) => s[..BackSpace(s, i)]
  }

  function Trim(s: string): string {
    var start := SkipSpace(s, 0);
    var end := BackSpace(s, |s|);
    if start <= end then s[start..end] else ""
  }

  function Fallback(raw: string): string { Trim(StripClosing(StripOpening(raw))) }

  lemma FenceInSlice(s: string, a: nat, b: nat)
    requires a <= b <= |s|
    ensures forall k: nat :: FenceAt(s[a..b], k) ==> FenceAt(s, a + k)
  {}

  /** What is left of a truncated reply holds no code fence and no white space at either end. */
  lemma FallbackIsBare(raw: string)
    ensures var r := Fallback(raw);
            && (forall k: nat :: !FenceAt(r, k))
            && (r != "" ==> !IsSpace(r[0]) && !IsSpace(r[|r| - 1]))
  {
    var source := StripOpening(raw);
    var s := StripClosing(source);
    var start, end := SkipSpace(s, 0), BackSpace(s, |s|);
    FenceInSlice(source, 0, |s|);
    assert source[0..|s|] == s;
    if start <= end { FenceInSlice(s, start, end); }
  }

  predicate AllSpace(s: string) { forall i :: 0 <= i < |s| ==> IsSpace(s[i]) }

  lemma {:induction false} SkippedIsSpace(s: string, i: nat)
    requires i <= |s|
    ensures AllSpace(s[i..SkipSpace(s, i)])
    decreases |s| - i
  {
    if i < |s| && IsSpace(s[i]) {
      SkippedIsSpace(s, i + 1);
      assert s[i..SkipSpace(s, i)] == [s[i]] + s[i + 1..SkipSpace(s, i)];
    }
  }

  lemma {:induction false} BackedIsSpace(s: string, i: nat)
    requires i <= |s|
    ensures AllSpace(s[BackSpace(s, i)..i])
  {
    if i > 0 && IsSpace(s[i - 1]) {
      BackedIsSpace(s, i - 1);
      assert s[BackSpace(s, i)..i] == s[BackSpace(s, i)..i - 1] + [s[i - 1]];
    }
  }

  lemma EndsAreSpace(s: string)
    ensures AllSpace(s[..SkipSpace(s, 0)]) && AllSpace(s[BackSpace(s, |s|)..])
  {
    SkippedIsSpace(s, 0);
    BackedIsSpace(s, |s|);
    assert s[0..SkipSpace(s, 0)] == s[..SkipSpace(s, 0)];
    assert s[BackSpace(s, |s|)..|s|] == s[BackSpace(s, |s|)..];
  }

  lemma CoveredBySpace(s: string, start: nat, end: nat)
    requires end < start <= |s| && AllSpace(s[..start]) && AllSpace(s[end..])
    ensures AllSpace(s)
  {
    forall i | 0 <= i < |s| ensures IsSpace(s[i]) {
      if i < start { assert s[..start][i] == s[i]; } else { assert s[end..][i - end] == s[i]; }
    }
  }

  /** Trimming takes away white space only. */
  lemma TrimKeeps(s: string) returns (before: string, after: string)
    ensures s == before + Trim(s) + after && AllSpace(before) && AllSpace(after)
  {
    var start, end := SkipSpace(s, 0), BackSpace(s, |s|);
    EndsAreSpace(s);
    if start <= end {
      before, after := s[..start], s[end..];
    } else {
      before, after := s, "";
      CoveredBySpace(s, start, end);
    }
  }

  /** Of a reply without a code fence everything is kept but the white space around it. */
  lemma FallbackKeepsUnfenced(raw: string) returns (before: string, after: string)
    requires forall k: nat :: !FenceAt(raw, k)
    ensures raw == before + Fallback(raw) + after && AllSpace(before) && AllSpace(after)
  {
    before, after := TrimKeeps(raw);
  }

  const FENCE := "```"

  /** Neither in the text nor across its end can a fence begin, whatever follows. */
  ghost predicate Unfenced(s: string) { forall k: nat :: !FenceAt(s + "``", k) }

  lemma NoFenceAcross(s: string, t: string, k: nat)
    requires FENCE <= t && k < |s| && !FenceAt(s + "``", k)
    ensures !FenceAt(s + t, k)
  {
    var all, padded := s + t, s + "``";
    assert t[0] == '`' && t[1] == '`';
    assert all[k] == padded[k] && all[k + 1] == padded[k + 1] && all[k + 2] == padded[k + 2];
  }

  lemma FirstFenceBehind(s: string, t: string)
    requires Unfenced(s) && FENCE <= t
    ensures FirstFence(s + t) == Some(|s|)
  {
    assert FenceAt(s + t, |s|) by {
      assert (s + t)[|s|] == t[0] && (s + t)[|s| + 1] == t[1] && (s + t)[|s| + 2] == t[2];
    }
    forall k: nat | k < |s| ensures !FenceAt(s + t, k) {
      NoFenceAcross(s, t, k);
    }
  }

  lemma UnfencedHasNone(s: string)
    requires Unfenced(s)
    ensures FirstFence(s).None?
  {
    forall k: nat ensures !FenceAt(s, k) {
      assert !FenceAt(s + "``", k);
      assert k + 3 <= |s| ==>
          s[k] == (s + "``")[k] && s[k + 1] == (s + "``")[k + 1] && s[k + 2] == (s + "``")[k + 2];
    }
  }

  lemma SuffixIsUnfenced(body: string, at: nat)
    requires Unfenced(body) && at <= |body|
    ensures Unfenced(body[at..])
  {
    var padded := body + "``";
    assert padded[at..] == body[at..] + "``";
    forall k: nat ensures !FenceAt(body[at..] + "``", k) {
      assert !FenceAt(padded, at + k);
      FenceInSlice(padded, at, |padded|);
      assert padded[at..|padded|] == padded[at..];
    }
  }

  lemma {:induction false} SkipStops(s: string, i: nat, k: nat)
    requires i <= k < |s| && !IsSpace(s[k])
    ensures SkipSpace(s, i) <= k
    decreases |s| - i
  {
    if IsSpace(s[i]) { SkipStops(s, i + 1, k); }
  }

  lemma SkipStopsAtFence(body: string, rest: string)
    requires rest == "" || FENCE <= rest
    ensures SkipSpace(body + rest, 0) <= |body|
  {
    if rest != "" {
      assert (body + rest)[|body|] == rest[0] == FENCE[0];
      SkipStops(body + rest, 0, |body|);
    }
  }

  lemma AfterFence(lead: string, t: string)
    ensures |lead + (FENCE + t)| >= |lead| + 3 && (lead + (FENCE + t))[|lead| + 3..] == t
  {}

  lemma TagIsStripped(tag: string, text: string)
    requires tag == TAG || (tag == "" && !(TAG <= text))
    ensures StripTag(tag + text) == text[SkipSpace(text, 0)..]
  {
    if tag == "" { assert tag + text == text; } else { assert (tag + text)[|tag|..] == text; }
  }

  /** What follows the tag of the opening fence is left, from the first character that is not white space. */
  lemma OpeningIsStripped(lead: string, tag: string, text: string)
    requires Unfenced(lead) && (tag == TAG || (tag == "" && !(TAG <= text)))
    ensures StripOpening(lead + (FENCE + (tag + text))) == text[SkipSpace(text, 0)..]
  {
    var behind := FENCE + (tag + text);
    FirstFenceBehind(lead, behind);
    AfterFence(lead, tag + text);
    TagIsStripped(tag, text);
  }

  lemma ClosingIsStripped(inner: string, rest: string)
    requires Unfenced(inner) && (rest == "" || FENCE <= rest)
    ensures StripClosing(inner + rest) <= inner
    ensures AllSpace(inner[|StripClosing(inner + rest)|..])
  {
    var s := inner + rest;
    if rest == "" {
      assert s == inner;
      UnfencedHasNone(inner);
    } else {
      FirstFenceBehind(inner, rest);
      var end := BackSpace(s, |inner|);
      BackedIsSpace(s, |inner|);
      assert s[..end] == inner[..end] && s[end..|inner|] == inner[end..];
    }
  }

  lemma SpaceConcat(a: string, b: string)
    requires AllSpace(a) && AllSpace(b)
    ensures AllSpace(a + b)
  {}

  /** White space on either side of a text that is kept but for white space. */
  lemma Widen(front: string, before: string, kept: string, after: string, back: string)
    returns (b: string, a: string)
    requires AllSpace(front) && AllSpace(before) && AllSpace(after) && AllSpace(back)
    ensures front + (before + kept + after) + back == b + kept + a && AllSpace(b) && AllSpace(a)
  {
    b, a := front + before, after + back;
    SpaceConcat(front, before);
    SpaceConcat(after, back);
  }

  lemma PrefixIsKept(closed: string, back: string) returns (before: string, after: string)
    requires AllSpace(back)
    ensures closed + back == before + Trim(closed) + after && AllSpace(before) && AllSpace(after)
  {
    var b, a := TrimKeeps(closed);
    before, after := Widen("", b, Trim(closed), a, back);
    assert "" + closed == closed;
  }

  lemma InnerIsKept(inner: string, rest: string) returns (before: string, after: string)
    requires Unfenced(inner) && (rest == "" || FENCE <= rest)
    ensures inner == before + Trim(StripClosing(inner + rest)) + after
    ensures AllSpace(before) && AllSpace(after)
  {
    ClosingIsStripped(inner, rest);
    var closed := StripClosing(inner + rest);
    assert inner == closed + inner[|closed|..];
    before, after := PrefixIsKept(closed, inner[|closed|..]);
  }

  lemma SkipAcross(body: string, rest: string) returns (at: nat)
    requires rest == "" || FENCE <= rest
    ensures at <= |body| && (body + rest)[SkipSpace(body + rest, 0)..] == body[at..] + rest && AllSpace(body[..at])
  {
    at := SkipSpace(body + rest, 0);
    SkippedIsSpace(body + rest, 0);
    SkipStopsAtFence(body, rest);
    assert (body + rest)[0..at] == body[..at];
  }

  /** Between the fences only white space is lost: what `text` begins with and what `body` ends with. */
  lemma BodyIsKept(body: string, rest: string) returns (before: string, after: string)
    requires Unfenced(body) && (rest == "" || FENCE <= rest)
    ensures var text := body + rest;
            body == before + Trim(StripClosing(text[SkipSpace(text, 0)..])) + after
    ensures AllSpace(before) && AllSpace(after)
  {
    var at := SkipAcross(body, rest);
    SuffixIsUnfenced(body, at);
    var inner := body[at..];
    before, after := InnerIsKept(inner, rest);
    before, after := Widen(body[..at], before, Trim(StripClosing(inner + rest)), after, "");
    assert body == body[..at] + inner + "";
  }

  /** Of a fenced reply, whether it breaks off before its closing fence or goes on behind it, the text between the
      fences is kept but for the white space around it. */
  lemma FallbackKeepsFenced(lead: string, tag: string, body: string, rest: string)
    returns (before: string, after: string)
    requires Unfenced(lead) && Unfenced(body) && (rest == "" || "```" <= rest)
    requires tag == "json" || (tag == "" && !("json" <= body + rest))
    ensures body == before + Fallback(lead + ("```" + (tag + (body + rest)))) + after
    ensures AllSpace(before) && AllSpace(after)
  {
    OpeningIsStripped(lead, tag, body + rest);
    before, after := BodyIsKept(body, rest);
  }

  /** A reply without an opening bracket is given back as it is, fences and all. */
  lemma UnbracketedIsKept(raw: string)
    requires forall i :: 0 <= i < |raw| ==> raw[i] != '{' && raw[i] != '['
    ensures Extract(raw) == raw
  {}

  // ---- RFC 8259 texts ----

  /** One character of a string as written: unescaped, a two-character escape, or \uXXXX. */
  datatype Item = Plain(c: char) | Short(c: char) | Unicode(hex: string)

  /** A JSON text with the white space it is written with. */
  datatype Json =
    | Scalar(text: string)
    | Str(items: seq<Item>)
    | Arr(pad: string, elements: Elements)
    | Obj(pad: string, members: Members)

  datatype Elements = NoElements | Element(before: string, value: Json, after: string, rest: Elements)

  datatype Members =
    | NoMembers
    | Member(before: string, key: seq<Item>, colonBefore: string, colonAfter: string, value: Json, after: string,
             rest: Members)

  predicate IsWs(s: string) { forall c :: c in s ==> c == ' ' || c == '\t' || c == '\n' || c == '\r' }

  predicate IsHex(c: char) { '0' <= c <= '9' || 'a' <= c <= 'f' || 'A' <= c <= 'F' }

  predicate ValidItem(item: Item) {
    match item
    case Plain(c) => c >= ' ' && c != '"' && c != '\\'
    case Short(c) => c in "\"\\/bfnrt"
    case Unicode(hex) => |hex| == 4 && forall c :: c in hex ==> IsHex(c)
  }

  predicate ValidItems(items: seq<Item>) { forall item :: item in items ==> ValidItem(item) }

  /** `true`, `false`, `null` and every number are made of these characters. */
  predicate ScalarChar(c: char) { 'a' <= c <= 'z' || '0' <= c <= '9' || c == 'E' || c == '+' || c == '-' || c == '.' }

  predicate Valid(v: Json) {
    match v
    case Scalar(text) => forall c :: c in text ==> ScalarChar(c)
    case Str(items) => ValidItems(items)
    case Arr(pad, elements) => IsWs(pad) && ValidElements(elements)
    case Obj(pad, members) => IsWs(pad) && ValidMembers(members)
  }

  predicate ValidElements(e: Elements) {
    e.Element? ==> IsWs(e.before) && Valid(e.value) && IsWs(e.after) && ValidElements(e.rest)
  }

  predicate ValidMembers(m: Members) {
    m.Member? ==>
      && IsWs(m.before) && ValidItems(m.key) && IsWs(m.colonBefore) && IsWs(m.colonAfter)
      && Valid(m.value) && IsWs(m.after) && ValidMembers(m.rest)
  }

  function PrintItem(item: Item): string {
    match item
    case Plain(c) => [c]
    case Short(c) => ['\\', c]
    case Unicode(hex) => "\\u" + hex
  }

  function PrintItems(items: seq<Item>): string {
    if items == [] then "" else PrintItem(items[0]) + PrintItems(items[1..])
  }

  function PrintString(items: seq<Item>): string { "\"" + PrintItems(items) + "\"" }

  /** A text without its last character, which for arrays and objects is the closing bracket. */
  function Open(v: Json): string
    requires v.Arr? || v.Obj?
    decreases v, 0
  {
    match v
    case Arr(pad, elements) => "[" + pad + PrintElements(elements)
    case Obj(pad, members) => "{" + pad + PrintMembers(members)
  }

  function Print(v: Json): string
    decreases v, 1
  {
    match v
    case Scalar(text) => text
    case Str(items) => PrintString(items)
    case Arr(_, _) => Open(v) + "]"
    case Obj(_, _) => Open(v) + "}"
  }

  function PrintElements(e: Elements): string
    decreases e, 1
  {
    match e
    case NoElements => ""
    case Element(before, value, after, rest) =>
      before + Print(value) + after + (if rest.NoElements? then "" else "," + PrintElements(rest))
  }

  function PrintMembers(m: Members): string
    decreases m, 1
  {
    match m
    case NoMembers => ""
    case Member(before, key, colonBefore, colonAfter, value, after, rest) =>
      before + PrintString(key) + colonBefore + ":" + colonAfter + Print(value) + after
      + (if rest.NoMembers? then "" else "," + PrintMembers(rest))
  }

  // ---- The scanner passes over every printed value ----

  /** The scanner's variables after all of `text`, or nothing if `text` contains the ending bracket. */
  function Over(text: string, st: Scan): Option<Scan> {
    if text == "" then Some(st)
    else if Ends(st, text[0]) then None
    else Over(text[1..], Next(st, text[0]))
  }

  /** `text` leaves the scanner where it was, at depth `d` outside any string. */
  ghost predicate Neutral(text: string, d: int) { Over(text, Scan(d, false, false)) == Some(Scan(d, false, false)) }

  lemma {:induction false} OverConcat(a: string, b: string, st: Scan)
    ensures Over(a + b, st) == match Over(a, st) case Some(mid) => Over(b, mid) case None => None
  {
    if a == "" {
      assert a + b == b;
    } else {
      assert (a + b)[1..] == a[1..] + b;
      if !Ends(st, a[0]) { OverConcat(a[1..], b, Next(st, a[0])); }
    }
  }

  lemma {:induction false} EndAfter(raw: string, i: nat, text: string, st: Scan)
    requires i + |text| <= |raw| && raw[i..i + |text|] == text && Over(text, st).Some?
    ensures EndFrom(raw, i, st) == EndFrom(raw, i + |text|, Over(text, st).value)
    decreases |text|
  {
    if text != "" {
      assert raw[i] == text[0];
      assert raw[i + 1..i + 1 + |text[1..]|] == text[1..];
      EndAfter(raw, i + 1, text[1..], Next(st, text[0]));
    }
  }

  lemma {:induction false} QuietNeutral(text: string, d: int)
    requires forall c :: c in text ==> c != '"' && c != '\\' && !Opening(c) && !Closing(c)
    ensures Neutral(text, d)
  {
    if text != "" {
      assert text[0] in text && forall c :: c in text[1..] ==> c in text;
      QuietNeutral(text[1..], d);
    }
  }

  lemma WsNeutral(text: string, d: int)
    requires IsWs(text)
    ensures Neutral(text, d)
  {
    QuietNeutral(text, d);
  }

  lemma {:induction false} InStringQuiet(text: string, d: int)
    requires forall c :: c in text ==> c != '"' && c != '\\'
    ensures Over(text, Scan(d, true, false)) == Some(Scan(d, true, false))
  {
    if text != "" {
      assert text[0] in text && forall c :: c in text[1..] ==> c in text;
      InStringQuiet(text[1..], d);
    }
  }

  /** Inside a string, brackets and escaped quotes change nothing. */
  lemma ItemPasses(item: Item, d: int)
    requires ValidItem(item)
    ensures Over(PrintItem(item), Scan(d, true, false)) == Some(Scan(d, true, false))
  {
    match item
    case Plain(c) => InStringQuiet([c], d);
    case Short(c) =>
      assert ['\\', c][1..] == [c] && [c][1..] == "";
      assert Over([c], Scan(d, true, true)) == Some(Scan(d, true, false));
    case Unicode(hex) =>
      assert "\\u" + hex == ['\\'] + (['u'] + hex);
      InStringQuiet(hex, d);
      assert (['u'] + hex)[1..] == hex;
  }

  lemma {:induction false} ItemsPass(items: seq<Item>, d: int)
    requires ValidItems(items)
    ensures Over(PrintItems(items), Scan(d, true, false)) == Some(Scan(d, true, false))
  {
    if items != [] {
      ItemPasses(items[0], d);
      ItemsPass(items[1..], d);
      OverConcat(PrintItem(items[0]), PrintItems(items[1..]), Scan(d, true, false));
    }
  }

  lemma StringNeutral(items: seq<Item>, d: int)
    requires ValidItems(items)
    ensures Neutral(PrintString(items), d)
  {
    var text := PrintItems(items);
    ItemsPass(items, d);
    OverConcat(text, "\"", Scan(d, true, false));
    assert PrintString(items)[1..] == text + "\"";
  }

  lemma NeutralConcat(a: string, b: string, d: int)
    requires Neutral(a, d) && Neutral(b, d)
    ensures Neutral(a + b, d)
  {
    OverConcat(a, b, Scan(d, false, false));
  }

  /** Every value below the top leaves depth and string state as they were. */
  lemma {:induction false} ValueNeutral(v: Json, d: int)
    requires Valid(v) && d >= 1
    ensures Neutral(Print(v), d)
    decreases v, 1
  {
    match v
    case Scalar(text) =>
      QuietNeutral(text, d);
    case Str(items) =>
      StringNeutral(items, d);
    case Arr(_, _) =>
      OpenDescends(v, d);
      OverConcat(Open(v), "]", Scan(d, false, false));
    case Obj(_, _) =>
      OpenDescends(v, d);
      OverConcat(Open(v), "}", Scan(d, false, false));
  }

  lemma BracketDescends(open: string, pad: string, inner: string, d: int)
    requires (open == "[" || open == "{") && d >= 0 && Neutral(pad, d + 1) && Neutral(inner, d + 1)
    ensures Over(open + pad + inner, Scan(d, false, false)) == Some(Scan(d + 1, false, false))
  {
    NeutralConcat(pad, inner, d + 1);
    var text := open + pad + inner;
    assert text[0] == open[0] && text[1..] == pad + inner;
  }

  /** A container's text up to its closing bracket takes the scanner one level down. */
  lemma {:induction false} OpenDescends(v: Json, d: int)
    requires Valid(v) && (v.Arr? || v.Obj?) && d >= 0
    ensures Over(Open(v), Scan(d, false, false)) == Some(Scan(d + 1, false, false))
    decreases v, 0
  {
    match v
    case Arr(pad, elements) =>
      WsNeutral(pad, d + 1);
      ElementsNeutral(elements, d + 1);
      BracketDescends("[", pad, PrintElements(elements), d);
    case Obj(pad, members) =>
      WsNeutral(pad, d + 1);
      MembersNeutral(members, d + 1);
      BracketDescends("{", pad, PrintMembers(members), d);
  }

  lemma {:induction false} ElementsNeutral(e: Elements, d: int)
    requires ValidElements(e) && d >= 1
    ensures Neutral(PrintElements(e), d)
    decreases e, 1
  {
    match e
    case NoElements =>
    case Element(before, value, after, rest) =>
      WsNeutral(before, d);
      ValueNeutral(value, d);
      WsNeutral(after, d);
      ElementsNeutral(rest, d);
      QuietNeutral(",", d);
      NeutralConcat(",", PrintElements(rest), d);
      NeutralConcat(before, Print(value), d);
      NeutralConcat(before + Print(value), after, d);
      NeutralConcat(before + Print(value) + after, if rest.NoElements? then "" else "," + PrintElements(rest), d);
  }

  lemma {:induction false} MembersNeutral(m: Members, d: int)
    requires ValidMembers(m) && d >= 1
    ensures Neutral(PrintMembers(m), d)
    decreases m, 1
  {
    match m
    case NoMembers =>
    case Member(before, key, colonBefore, colonAfter, value, after, rest) =>
      WsNeutral(before, d);
      StringNeutral(key, d);
      WsNeutral(colonBefore, d);
      QuietNeutral(":", d);
      WsNeutral(colonAfter, d);
      ValueNeutral(value, d);
      WsNeutral(after, d);
      MembersNeutral(rest, d);
      QuietNeutral(",", d);
      NeutralConcat(",", PrintMembers(rest), d);
      NeutralConcat(before, PrintString(key), d);
      NeutralConcat(before + PrintString(key), colonBefore, d);
      NeutralConcat(before + PrintString(key) + colonBefore, ":", d);
      NeutralConcat(before + PrintString(key) + colonBefore + ":", colonAfter, d);
      NeutralConcat(before + PrintString(key) + colonBefore + ":" + colonAfter, Print(value), d);
      NeutralConcat(before + PrintString(key) + colonBefore + ":" + colonAfter + Print(value), after, d);
      NeutralConcat(before + PrintString(key) + colonBefore + ":" + colonAfter + Print(value) + after,
                    if rest.NoMembers? then "" else "," + PrintMembers(rest), d);
  }

  lemma {:induction false} OpeningAfterPreamble(preamble: string, rest: string)
    requires (forall c :: c in preamble ==> !Opening(c)) && rest != "" && Opening(rest[0])
    ensures FirstOpening(preamble + rest) == |preamble|
  {
    if preamble == "" {
      assert preamble + rest == rest;
    } else {
      assert preamble[0] in preamble && forall c :: c in preamble[1..] ==> c in preamble;
      OpeningAfterPreamble(preamble[1..], rest);
      assert (preamble + rest)[1..] == preamble[1..] + rest;
    }
  }

  /** Whatever precedes the first bracket and whatever follows the value, the printed object or array
      comes back unchanged. */
  lemma ExtractsPrintedValue(preamble: string, v: Json, suffix: string)
    requires forall c :: c in preamble ==> !Opening(c)
    requires Valid(v) && (v.Arr? || v.Obj?)
    ensures Extract(preamble + Print(v) + suffix) == Print(v)
  {
    var body, tail := Open(v), [Print(v)[|Open(v)|]] + suffix;
    var raw := preamble + Print(v) + suffix;
    assert Print(v) == body + [Print(v)[|body|]];
    assert raw == preamble + (body + tail);
    OpeningAfterPreamble(preamble, body + tail);
    OpenDescends(v, 0);
    EndAfter(raw, |preamble|, body, INITIAL);
    var end := |preamble| + |body|;
    assert raw[end] == tail[0];
    assert EndFrom(raw, |preamble|, INITIAL) == Some(end);
    assert raw[|preamble|..end + 1] == Print(v);
  }

  /** A printed object or array cut short anywhere ends the scan without its closing bracket. */
  lemma CutIsUnclosed(v: Json, n: nat)
    requires Valid(v) && (v.Arr? || v.Obj?) && 0 < n < |Print(v)|
    ensures n <= |Open(v)| && Print(v)[..n] == Open(v)[..n] && Over(Open(v)[..n], INITIAL).Some?
  {
    OpenDescends(v, 0);
    assert Print(v)[..|Open(v)|] == Open(v);
    assert Open(v) == Open(v)[..n] + Open(v)[n..];
    OverConcat(Open(v)[..n], Open(v)[n..], INITIAL);
  }

  /** The reply whose object or array is cut short anywhere is left to the fallback. */
  lemma CutFallsBack(preamble: string, v: Json, n: nat)
    requires forall c :: c in preamble ==> !Opening(c)
    requires Valid(v) && (v.Arr? || v.Obj?) && 0 < n < |Print(v)|
    ensures Extract(preamble + Print(v)[..n]) == Fallback(preamble + Print(v)[..n])
  {
    var cut := Print(v)[..n];
    var raw := preamble + cut;
    CutIsUnclosed(v, n);
    assert Opening(cut[0]);
    OpeningAfterPreamble(preamble, cut);
    assert raw[|preamble|..|preamble| + |cut|] == cut;
    EndAfter(raw, |preamble|, cut, INITIAL);
  }
}
