/**
 The `.env` printer and parser of the setup helper: `render_env_from_template`, `render_env`,
 `parse_env_text` and `merge_preserve`.
 */
module EnvFile {
  import opened Basics
  import opened PyText

  // ---------------------------------------------------------------------------------------
  // Parsing
  // ---------------------------------------------------------------------------------------

  /** Position of the first `c`, or the length when there is none. */
  function IndexOf(s: string, c: char): (i: nat)
    ensures i <= |s| && c !in s[..i] && (i < |s| ==> s[i] == c)
  {
    if s == "" || s[0] == c then 0
    else
      var i := IndexOf(s[1..], c);
      assert s[..i + 1] == [s[0]] + s[1..][..i];
      1 + i
  }

  function Unquote(v: string): string {
    if |v| >= 2 && v[0] == v[|v| - 1] && (v[0] == '\'' || v[0] == '"') then v[1..|v| - 1] else v
  }

  predicate Ignored(line: string) {
    line == "" || line[0] == '#'
  }

  /** What one line assigns, if anything. */
  function ParseLine(raw: string): Option<(string, string)> {
    var line := Strip(raw);
    if Ignored(line) || '=' !in line then None
    else
      var i := IndexOf(line, '=');
      var key := Strip(line[..i]);
      if key == "" then None else Some((key, Unquote(Strip(line[i + 1..]))))
  }

  /** Later lines win. */
  function ParseLines(lines: seq<string>): map<string, string> {
    if lines == [] then map[]
    else
      var front := ParseLines(lines[..|lines| - 1]);
      match ParseLine(lines[|lines| - 1])
      case None => front
      case Some((k, v)) => front[k := v]
  }

  function ParseEnv(text: string): map<string, string> {
    ParseLines(SplitLines(text))
  }

  method ParseEnvText(text: string) returns (out: map<string, string>)
    ensures out == ParseEnv(text)
    ensures SaysExactly(SplitLines(text), out)
  {
    hide Strip;
    var lines := SplitLines(text);
    out := map[];
    for n := 0 to |lines|
      invariant out == ParseLines(lines[..n])
    {
      assert lines[..n + 1][..n] == lines[..n];
      var line := Strip(lines[n]);
      if line == "" || line[0] == '#' || '=' !in line {
        continue;
      }
      var i := IndexOf(line, '=');
      var key := Strip(line[..i]);
      if key == "" {
        continue;
      }
      out := out[key := Unquote(Strip(line[i + 1..]))];
    }
    assert lines[..|lines|] == lines;
    hide *;
    FileSays(text);
  }

  // ---------------------------------------------------------------------------------------
  // Printing
  // ---------------------------------------------------------------------------------------

  predicate IsIdentStart(c: char) {
    'a' <= c <= 'z' || 'A' <= c <= 'Z' || c == '_'
  }

  predicate IsIdentChar(c: char) {
    IsIdentStart(c) || '0' <= c <= '9'
  }

  predicate IsIdentifier(s: string) {
    s != "" && IsIdentStart(s[0]) && forall i :: 0 <= i < |s| ==> IsIdentChar(s[i])
  }

  /** Length of the identifier characters at the front. */
  function IdentLength(s: string): (n: nat)
    ensures n <= |s| && (forall i :: 0 <= i < n ==> IsIdentChar(s[i])) && (n < |s| ==> !IsIdentChar(s[n]))
  {
    if s == "" || !IsIdentChar(s[0]) then 0 else 1 + IdentLength(s[1..])
  }

  /** The group that `^\s*([A-Za-z_][A-Za-z0-9_]*)\s*=` captures. */
  function AssignedKey(raw: string): Option<string> {
    var t := LStrip(raw);
    var n := IdentLength(t);
    if n == 0 || !IsIdentStart(t[0]) then None
    else
      var rest := LStrip(t[n..]);
      if rest != "" && rest[0] == '=' then Some(t[..n]) else None
  }

  /** A Python dict: its keys in insertion order. */
  datatype Env = Env(keys: seq<string>, values: map<string, string>)
  {
    ghost predicate Valid() {
      && (forall k :: k in keys <==> k in values)
      && (forall i, j :: 0 <= i < j < |keys| ==> keys[i] != keys[j])
    }

    /** Identifiers for keys, and no line breaks in values. */
    ghost predicate Printable() {
      Valid() && forall k | k in values :: IsIdentifier(k) && OneLine(values[k])
    }
  }

  function Assignment(k: string, v: string): string {
    k + "=\"" + v + "\""
  }

  /** The template key that a line sets and the environment overrides. */
  function OverriddenKey(raw: string, env: Env): Option<string> {
    if Ignored(Strip(raw)) then None
    else
      var k := AssignedKey(raw);
      if k.Some? && k.value in env.values then k else None
  }

  function RenderLine(raw: string, env: Env): string {
    match OverriddenKey(raw, env)
    case None => raw
    case Some(k) => Assignment(k, env.values[k])
  }

  function RenderLines(lines: seq<string>, env: Env): (out: seq<string>)
    ensures |out| == |lines|
  {
    if lines == [] then [] else RenderLines(lines[..|lines| - 1], env) + [RenderLine(lines[|lines| - 1], env)]
  }

  function Seen(lines: seq<string>, env: Env): set<string> {
    if lines == [] then {}
    else
      var front := Seen(lines[..|lines| - 1], env);
      match OverriddenKey(lines[|lines| - 1], env)
      case None => front
      case Some(k) => front + {k}
  }

  /** The keys, in order, that are not in `seen`. */
  function Unseen(keys: seq<string>, seen: set<string>): seq<string> {
    if keys == [] then []
    else
      var last := keys[|keys| - 1];
      Unseen(keys[..|keys| - 1], seen) + (if last in seen then [] else [last])
  }

  function Assignments(keys: seq<string>, values: map<string, string>): seq<string>
    requires forall k | k in keys :: k in values
  {
    seq(|keys|, i requires 0 <= i < |keys| => assert keys[i] in keys; Assignment(keys[i], values[keys[i]]))
  }

  /** The line that introduces generated keys, "# --- Additional (generated; not in .env.example) ---", in pieces: one long
      literal gives the solver every character as a separate fact wherever the function is in scope. */
  function Header(): string {
    "# --- " + "Additional " + "(generated; " + "not in " + ".env." + "example) " + "---"
  }

  lemma {:induction false} UnseenKeys(keys: seq<string>, seen: set<string>)
    ensures forall k :: k in Unseen(keys, seen) <==> k in keys && k !in seen
  {
    if keys != [] {
      var front, last := keys[..|keys| - 1], keys[|keys| - 1];
      UnseenKeys(front, seen);
      assert keys == front + [last];
    }
  }

  function Leftover(keys: seq<string>, values: map<string, string>): seq<string>
    requires forall k | k in keys :: k in values
  {
    if keys == [] then [] else ["", Header()] + Assignments(keys, values)
  }

  function OutputLines(lines: seq<string>, env: Env): seq<string>
    requires env.Valid()
  {
    var unseen := Unseen(env.keys, Seen(lines, env));
    assert forall k | k in unseen :: k in env.values by { UnseenKeys(env.keys, Seen(lines, env)); }
    RenderLines(lines, env) + Leftover(unseen, env.values)
  }

  function RenderFromTemplate(template: string, env: Env): string
    requires env.Valid()
  {
    Join(OutputLines(SplitLines(template), env), "\n") + "\n"
  }

  method MirrorTemplate(lines: seq<string>, env: Env) returns (out: seq<string>, seen: set<string>)
    ensures out == RenderLines(lines, env) && seen == Seen(lines, env)
  {
    hide Strip, AssignedKey;
    seen, out := {}, [];
    for n := 0 to |lines|
      invariant out == RenderLines(lines[..n], env) && seen == Seen(lines[..n], env)
    {
      assert lines[..n + 1][..n] == lines[..n];
      var stripped := Strip(lines[n]);
      if stripped == "" || stripped[0] == '#' {
        out := out + [lines[n]];
        continue;
      }
      var m := AssignedKey(lines[n]);
      if m.Some? && m.value in env.values {
        out := out + [Assignment(m.value, env.values[m.value])];
        seen := seen + {m.value};
      } else {
        out := out + [lines[n]];
      }
    }
    assert lines[..|lines|] == lines;
  }

  method CollectUnseen(keys: seq<string>, seen: set<string>) returns (leftover: seq<string>)
    ensures leftover == Unseen(keys, seen)
  {
    leftover := [];
    for i := 0 to |keys|
      invariant leftover == Unseen(keys[..i], seen)
    {
      assert keys[..i + 1][..i] == keys[..i];
      leftover := leftover + (if keys[i] in seen then [] else [keys[i]]);
    }
    assert keys[..|keys|] == keys;
  }

  method RenderEnvFromTemplate(template: string, env: Env) returns (text: string)
    requires env.Valid()
    ensures text == RenderFromTemplate(template, env)
  {
    var lines := SplitLines(template);
    var out, seen := MirrorTemplate(lines, env);
    var leftover := CollectUnseen(env.keys, seen);
    hide Header, Unseen, Seen, RenderLines, SplitLines, Join;
    if leftover != [] {
      UnseenKeys(env.keys, seen);
      out := out + (["", Header()] + Assignments(leftover, env.values));
    } else {
      assert out + [] == out;
    }
    text := Join(out, "\n") + "\n";
  }

  // ---------------------------------------------------------------------------------------
  // The pattern and the parser agree on every line
  // ---------------------------------------------------------------------------------------

  lemma IdentCharFacts(c: char)
    ensures IsIdentChar(c) ==> !IsSpace(c) && c != '=' && c != '#'
    ensures IsSpace(c) ==> c != '='
  {
  }

  lemma {:induction false} IndexOfIs(a: string, c: char, b: string)
    requires c !in a
    ensures IndexOf(a + [c] + b, c) == |a|
  {
    var s := a + [c] + b;
    if a != "" {
      assert s[1..] == a[1..] + [c] + b;
      IndexOfIs(a[1..], c, b);
    }
  }

  lemma {:induction false} IdentLengthIs(ident: string, rest: string)
    requires (forall i :: 0 <= i < |ident| ==> IsIdentChar(ident[i])) && (rest == "" || !IsIdentChar(rest[0]))
    ensures IdentLength(ident + rest) == |ident|
  {
    if ident == "" {
      assert ident + rest == rest;
    } else {
      assert (ident + rest)[1..] == ident[1..] + rest;
      IdentLengthIs(ident[1..], rest);
    }
  }

  /** What can be a key: no outer white space, no `=`, and not the start of a comment. */
  predicate KeyText(k: string) {
    Tight(k) && '=' !in k && k[0] != '#'
  }

  lemma IdentifierIsKey(k: string)
    requires IsIdentifier(k)
    ensures KeyText(k)
  {
    forall c | c in k ensures !IsSpace(c) && c != '=' && c != '#' { IdentCharFacts(c); }
  }

  /** `lead key gap = rest`, with white space for lead and gap. */
  ghost predicate Shape(raw: string, lead: string, key: string, gap: string, rest: string) {
    Blank(lead) && Blank(gap) && raw == lead + key + gap + "=" + rest
  }

  lemma NoEqualsBefore(key: string, gap: string)
    requires KeyText(key) && Blank(gap)
    ensures '=' !in key + gap
  {
    forall c | c in key + gap ensures c != '=' { IdentCharFacts(c); }
  }

  lemma ShapeStripped(raw: string, lead: string, key: string, gap: string, rest: string)
    requires Shape(raw, lead, key, gap, rest) && KeyText(key)
    ensures Strip(raw) == key + gap + "=" + RStrip(rest)
  {
    var body := key + gap + "=";
    var trail := RStripSplits(rest);
    var trimmed := RStrip(rest);
    var x := body + trimmed;
    assert Tight(x) by {
      assert x[0] == key[0];
      if trimmed == "" { assert x[|x| - 1] == '='; }
      else { assert x[|x| - 1] == trimmed[|trimmed| - 1]; }
    }
    StripIs(lead, x, trail);
    assert raw == lead + x + trail;
  }

  lemma ShapeParses(raw: string, lead: string, key: string, gap: string, rest: string)
    requires Shape(raw, lead, key, gap, rest) && KeyText(key)
    ensures ParseLine(raw) == Some((key, Unquote(Strip(RStrip(rest))))) && !Ignored(Strip(raw))
  {
    ShapeStripped(raw, lead, key, gap, rest);
    var trimmed := RStrip(rest);
    var line := Strip(raw);
    assert line[0] == key[0];
    NoEqualsBefore(key, gap);
    IndexOfIs(key + gap, '=', trimmed);
    assert line == (key + gap) + ['='] + trimmed;
    assert line[|key + gap|] == '=' && line[..|key + gap|] == key + gap && line[|key + gap| + 1..] == trimmed;
    StripIs("", key, gap);
    assert "" + key + gap == key + gap;
  }

  lemma ShapeMatches(raw: string, lead: string, key: string, gap: string, rest: string)
    requires Shape(raw, lead, key, gap, rest) && IsIdentifier(key)
    ensures AssignedKey(raw) == Some(key)
  {
    var tail := gap + "=" + rest;
    var t := key + tail;
    IdentCharFacts(key[0]);
    assert raw == lead + t;
    LStripIs(lead, t);
    IdentCharFacts(tail[0]);
    IdentLengthIs(key, tail);
    assert t[|key|..] == tail && t[..|key|] == key && tail == gap + ("=" + rest);
    LStripIs(gap, "=" + rest);
  }

  lemma FiveParts(a: string, b: string, c: string, d: string, e: string)
    ensures a + (b + (c + (d + e))) == a + b + c + d + e
  {
  }

  lemma MatchHasShape(raw: string) returns (lead: string, gap: string, rest: string)
    requires AssignedKey(raw).Some?
    ensures IsIdentifier(AssignedKey(raw).value) && Shape(raw, lead, AssignedKey(raw).value, gap, rest)
  {
    hide LStrip, IsSpace, IdentLength;
    lead := LStripSplits(raw);
    var t := LStrip(raw);
    var n := IdentLength(t);
    gap := LStripSplits(t[n..]);
    rest := LStrip(t[n..])[1..];
    assert LStrip(t[n..]) == "=" + rest;
    assert t == t[..n] + t[n..];
    FiveParts(lead, t[..n], gap, "=", rest);
  }

  /** Cut at its first `=`, a stripped line with a key is the key, white space, and the rest. */
  lemma StrippedHasShape(line: string, i: nat) returns (gap: string)
    requires Tight(line) && i < |line| && Strip(line[..i]) != ""
    ensures Blank(gap) && line[..i] == Strip(line[..i]) + gap && Tight(Strip(line[..i]))
  {
    var before;
    before, gap := StripSplits(line[..i]);
    hide Strip;
    assert before == "";
  }

  lemma ParseHasShape(raw: string) returns (lead: string, gap: string, rest: string)
    requires ParseLine(raw).Some?
    ensures KeyText(ParseLine(raw).value.0) && Shape(raw, lead, ParseLine(raw).value.0, gap, rest)
  {
    hide Strip, IsSpace, Tight;
    var line, key, i := Strip(raw), ParseLine(raw).value.0, IndexOf(Strip(raw), '=');
    var after;
    lead, after := StripSplits(raw);
    gap := StrippedHasShape(line, i);
    rest := line[i + 1..] + after;
    assert i < |line| && line[0] != '#' && key == Strip(line[..i]) && line[..i] == key + gap;
    KeyBefore(line, i, key, gap);
    hide Blank, ParseLine;
    assert line == line[..i] + ("=" + line[i + 1..]);
    assert raw == lead + (key + (gap + ("=" + rest)));
    FiveParts(lead, key, gap, "=", rest);
  }

  lemma KeyBefore(line: string, i: nat, key: string, gap: string)
    requires i < |line| && line[0] != '#' && '=' !in line[..i] && line[..i] == key + gap && Tight(key)
    ensures KeyText(key)
  {
    assert key[0] == line[..i][0] == line[0] && forall c | c in key :: c in line[..i];
  }

  /** A line sets an identifier, as the parser reads it, exactly when the renderer's pattern captures that key. */
  lemma PatternAgreesWithParser(raw: string, key: string)
    requires IsIdentifier(key)
    ensures AssignedKey(raw) == Some(key) <==> ParseLine(raw).Some? && ParseLine(raw).value.0 == key
    ensures AssignedKey(raw) == Some(key) ==> !Ignored(Strip(raw))
  {
    if AssignedKey(raw) == Some(key) {
      var lead, gap, rest := MatchHasShape(raw);
      IdentifierIsKey(key);
      ShapeParses(raw, lead, key, gap, rest);
    }
    if ParseLine(raw).Some? && ParseLine(raw).value.0 == key {
      var lead, gap, rest := ParseHasShape(raw);
      ShapeMatches(raw, lead, key, gap, rest);
    }
  }

  /** A printed assignment is read back as it was written, and matched under its own key. */
  lemma AssignmentReadsBack(k: string, v: string)
    requires IsIdentifier(k)
    ensures ParseLine(Assignment(k, v)) == Some((k, v))
    ensures AssignedKey(Assignment(k, v)) == Some(k) && !Ignored(Strip(Assignment(k, v)))
  {
    hide *;
    IdentifierIsKey(k);
    LineForms(k, v);
    AssignmentIs(k, v);
    AssignedIsParsed(Assignment(k, v), k, "\"" + v + "\"", v);
    ShapeMatches(Assignment(k, v), "", k, "", "\"" + v + "\"");
  }

  lemma AssignmentIs(k: string, v: string)
    ensures Assignment(k, v) == k + "=\"" + v + "\"" && Shape(Assignment(k, v), "", k, "", "\"" + v + "\"")
  {
  }

  // ---------------------------------------------------------------------------------------
  // What a file says, on its raw text
  // ---------------------------------------------------------------------------------------

  ghost predicate AssignsWith(raw: string, k: string, w: string, lead: string, gap: string, fore: string, aft: string) {
    && Blank(lead) && Blank(gap) && Blank(fore) && Blank(aft) && (w == "" || Tight(w))
    && raw == lead + k + gap + "=" + fore + w + aft
  }

  /** The line is `k = w`, with white space anywhere around the two. */
  ghost predicate Assigns(raw: string, k: string, w: string) {
    exists lead, gap, fore, aft :: AssignsWith(raw, k, w, lead, gap, fore, aft)
  }

  predicate Wrapped(w: string) {
    |w| >= 2 && w[0] == w[|w| - 1] && (w[0] == '\'' || w[0] == '"')
  }

  /** The text `w` stands for the value `v`: the inside of a pair of quotes, or the text as it is. */
  ghost predicate Reads(w: string, v: string) {
    w == "'" + v + "'" || w == "\"" + v + "\"" || (w == v && !Wrapped(w))
  }

  lemma ReadsOne(w: string, v: string)
    ensures Reads(w, v) <==> v == Unquote(w)
  {
    if Wrapped(w) {
      var inner := w[1..|w| - 1];
      assert w == [w[0]] + inner + [w[0]];
      if w == "'" + v + "'" || w == "\"" + v + "\"" { assert inner == v; }
    }
  }

  lemma TextOfRest(fore: string, w: string, aft: string)
    requires Blank(fore) && Blank(aft) && (w == "" || Tight(w))
    ensures Strip(RStrip(fore + w + aft)) == w
  {
    if w == "" {
      assert fore + w + aft == "" + (fore + aft);
      RStripIs("", fore + aft);
    } else {
      RStripIs(fore + w, aft);
      StripIs(fore, w, "");
      assert fore + w + "" == fore + w;
    }
  }

  lemma AssignedIsParsed(raw: string, k: string, w: string, v: string)
    requires KeyText(k) && Assigns(raw, k, w) && Reads(w, v)
    ensures ParseLine(raw) == Some((k, v)) && !Ignored(Strip(raw))
  {
    var lead, gap, fore, aft :| AssignsWith(raw, k, w, lead, gap, fore, aft);
    var rest := fore + w + aft;
    assert Shape(raw, lead, k, gap, rest) by { SevenParts(lead, k, gap, fore, w, aft); }
    hide *;
    ShapeParses(raw, lead, k, gap, rest);
    TextOfRest(fore, w, aft);
    ReadsOne(w, v);
  }

  lemma SevenParts(lead: string, k: string, gap: string, fore: string, w: string, aft: string)
    ensures lead + k + gap + "=" + fore + w + aft == lead + k + gap + "=" + (fore + w + aft)
  {
  }

  lemma ParsedIsAssigned(raw: string) returns (w: string)
    requires ParseLine(raw).Some?
    ensures var (k, v) := ParseLine(raw).value; KeyText(k) && Assigns(raw, k, w) && Reads(w, v)
  {
    var k := ParseLine(raw).value.0;
    hide *;
    var lead, gap, rest := ParseHasShape(raw);
    ShapeParses(raw, lead, k, gap, rest);
    var fore, aft := StripSplits(rest);
    w := Strip(rest);
    TextOfRest(fore, w, aft);
    ReadsOne(w, Unquote(w));
    AssignsIs(raw, k, w, lead, gap, fore, aft, rest);
  }

  lemma AssignsIs(raw: string, k: string, w: string, lead: string, gap: string, fore: string, aft: string, rest: string)
    requires Shape(raw, lead, k, gap, rest) && rest == fore + w + aft && Blank(fore) && Blank(aft) && (w == "" || Tight(w))
    ensures Assigns(raw, k, w)
  {
    SevenParts(lead, k, gap, fore, w, aft);
    assert AssignsWith(raw, k, w, lead, gap, fore, aft);
  }

  ghost predicate Sets(raw: string, k: string) {
    exists w :: Assigns(raw, k, w)
  }

  /** From line `from` on, no line assigns the key. */
  ghost predicate Silent(lines: seq<string>, from: nat, k: string) {
    forall j | from <= j < |lines| :: !Sets(lines[j], k)
  }

  ghost predicate LastAt(lines: seq<string>, i: nat, w: string, k: string, v: string) {
    i < |lines| && Assigns(lines[i], k, w) && Reads(w, v) && Silent(lines, i + 1, k)
  }

  /** The last line that assigns the key gives it this value. */
  ghost predicate LastValue(lines: seq<string>, k: string, v: string) {
    exists i: nat, w :: LastAt(lines, i, w, k, v)
  }

  lemma LastValueSnoc(lines: seq<string>, k: string, v: string)
    requires lines != [] && !Sets(lines[|lines| - 1], k)
    ensures LastValue(lines, k, v) <==> LastValue(lines[..|lines| - 1], k, v)
  {
    var front := lines[..|lines| - 1];
    hide Assigns, Reads;
    if LastValue(lines, k, v) {
      var i: nat, w :| LastAt(lines, i, w, k, v);
      assert Sets(lines[i], k);
      assert i < |front| && front[i] == lines[i];
      assert forall j | i < j < |front| :: front[j] == lines[j];
      assert LastAt(front, i, w, k, v);
    }
    if LastValue(front, k, v) {
      var i: nat, w :| LastAt(front, i, w, k, v);
      assert lines[i] == front[i];
      forall j | i + 1 <= j < |lines| ensures !Sets(lines[j], k) { if j < |front| { assert lines[j] == front[j]; } }
      assert LastAt(lines, i, w, k, v);
    }
  }

  lemma {:induction false} LinesRead(lines: seq<string>, k: string, v: string)
    ensures (k in ParseLines(lines) && ParseLines(lines)[k] == v) <==> KeyText(k) && LastValue(lines, k, v)
  {
    hide Assigns, Reads, KeyText, ParseLine;
    if lines != [] {
      var n := |lines| - 1;
      LinesRead(lines[..n], k, v);
      if ParseLine(lines[n]).Some? && ParseLine(lines[n]).value.0 == k {
        var w := ParsedIsAssigned(lines[n]);
        var u := ParseLine(lines[n]).value.1;
        assert LastAt(lines, n, w, k, u);
        if LastValue(lines, k, v) {
          var i: nat, x :| LastAt(lines, i, x, k, v);
          assert Sets(lines[n], k) by { assert Assigns(lines[n], k, w); }
          assert i == n;
          AssignedIsParsed(lines[n], k, x, v);
        }
      } else if KeyText(k) {
        if w :| Assigns(lines[n], k, w) {
          ReadsOne(w, Unquote(w));
          AssignedIsParsed(lines[n], k, w, Unquote(w));
        }
        LastValueSnoc(lines, k, v);
      }
    }
  }

  /** A file gives a key a value exactly when the last line that assigns the key says so. */
  lemma FileReads(text: string, k: string, v: string)
    ensures (k in ParseEnv(text) && ParseEnv(text)[k] == v) <==> KeyText(k) && LastValue(SplitLines(text), k, v)
  {
    hide ParseLines, LastValue, KeyText, SplitLines;
    LinesRead(SplitLines(text), k, v);
  }

  /** The map holds exactly what the last assignments of the lines say. */
  ghost predicate SaysExactly(lines: seq<string>, values: map<string, string>) {
    forall k, v :: MapsTo(values, k, v) <==> KeyText(k) && LastValue(lines, k, v)
  }

  predicate MapsTo(values: map<string, string>, k: string, v: string) {
    k in values && values[k] == v
  }

  lemma FileSays(text: string)
    ensures SaysExactly(SplitLines(text), ParseEnv(text))
  {
    hide ParseEnv, LastValue, KeyText, SplitLines;
    forall k, v ensures MapsTo(ParseEnv(text), k, v) <==> KeyText(k) && LastValue(SplitLines(text), k, v) { FileReads(text, k, v); }
  }

  /** The three ways to write a value on a line. */
  lemma LineForms(k: string, v: string)
    requires KeyText(k)
    ensures (v == "" || Tight(v)) && !Wrapped(v) ==> Assigns(k + "=" + v, k, v) && Reads(v, v)
    ensures Assigns(k + "='" + v + "'", k, "'" + v + "'") && Reads("'" + v + "'", v)
    ensures Assigns(k + "=\"" + v + "\"", k, "\"" + v + "\"") && Reads("\"" + v + "\"", v)
  {
    forall w | w == "" || Tight(w) ensures Assigns(k + "=" + w, k, w) { assert AssignsWith(k + "=" + w, k, w, "", "", "", ""); }
    var one, two := "'" + v + "'", "\"" + v + "\"";
    assert k + "=" + one == k + "='" + v + "'" && k + "=" + two == k + "=\"" + v + "\"";
    assert Tight(one) && Tight(two);
  }

  // ---------------------------------------------------------------------------------------
  // The printer/parser law
  // ---------------------------------------------------------------------------------------

  lemma {:induction false} ParseConcat(a: seq<string>, b: seq<string>)
    ensures ParseLines(a + b) == ParseLines(a) + ParseLines(b)
  {
    if b == [] {
      assert a + b == a;
    } else {
      assert (a + b)[..|a + b| - 1] == a + b[..|b| - 1];
      hide ParseLine;
      ParseConcat(a, b[..|b| - 1]);
    }
  }

  function Only(values: map<string, string>, keys: set<string>): map<string, string> {
    map k | k in values && k in keys :: values[k]
  }

  /** A rendered line assigns what the template line did, unless the environment overrides its key. */
  lemma RenderLineParses(raw: string, env: Env)
    requires env.Printable()
    ensures match OverriddenKey(raw, env)
            case Some(k) =>
              && k in env.values && ParseLine(RenderLine(raw, env)) == Some((k, env.values[k]))
              && ParseLine(raw).Some? && ParseLine(raw).value.0 == k
            case None =>
              && RenderLine(raw, env) == raw
              && (ParseLine(raw).Some? ==> ParseLine(raw).value.0 !in env.values)
  {
    match OverriddenKey(raw, env) {
      case Some(k) =>
        PatternAgreesWithParser(raw, k);
        AssignmentReadsBack(k, env.values[k]);
      case None =>
        var p := ParseLine(raw);
        if p.Some? && p.value.0 in env.values { PatternAgreesWithParser(raw, p.value.0); }
    }
  }

  lemma OverlayStep(front: map<string, string>, values: map<string, string>, seen: set<string>, k: string, v: string)
    ensures k in values ==> (front + Only(values, seen))[k := values[k]] == front[k := v] + Only(values, seen + {k})
    ensures k !in values ==> (front + Only(values, seen))[k := v] == front[k := v] + Only(values, seen)
  {
  }

  lemma {:induction false} RenderedLinesParse(lines: seq<string>, env: Env)
    requires env.Printable()
    ensures ParseLines(RenderLines(lines, env)) == ParseLines(lines) + Only(env.values, Seen(lines, env))
    ensures Seen(lines, env) <= env.values.Keys
  {
    if lines != [] {
      var front, last := lines[..|lines| - 1], lines[|lines| - 1];
      RenderedLinesParse(front, env);
      RenderLineParses(last, env);
      var out := RenderLines(lines, env);
      assert out[..|out| - 1] == RenderLines(front, env) && out[|out| - 1] == RenderLine(last, env);
      hide ParseLine, OverriddenKey, RenderLine, RenderLines, Only, Env.Printable;
      if ParseLine(last).Some? {
        OverlayStep(ParseLines(front), env.values, Seen(front, env), ParseLine(last).value.0, ParseLine(last).value.1);
      }
    }
  }

  lemma OnlySnoc(values: map<string, string>, front: seq<string>, last: string)
    requires last in values
    ensures Only(values, set k | k in front + [last]) == Only(values, set k | k in front)[last := values[last]]
  {
    var a, b := set k | k in front + [last], set k | k in front;
    assert a == b + {last};
  }

  lemma {:induction false} AssignmentsParse(keys: seq<string>, values: map<string, string>)
    requires forall k | k in keys :: k in values && IsIdentifier(k)
    ensures ParseLines(Assignments(keys, values)) == Only(values, set k | k in keys)
  {
    hide ParseLine, IsIdentifier, Assignment, Only;
    if keys == [] {
      assert Only(values, set k | k in keys) == map[] by { OnlyNone(values, keys); }
    } else {
      var front, last := keys[..|keys| - 1], keys[|keys| - 1];
      assert keys == front + [last];
      AssignmentsParse(front, values);
      AssignmentReadsBack(last, values[last]);
      OnlySnoc(values, front, last);
      var out := Assignments(keys, values);
      assert out[..|out| - 1] == Assignments(front, values) && out[|out| - 1] == Assignment(last, values[last]);
    }
  }

  lemma OnlyNone(values: map<string, string>, keys: seq<string>)
    requires keys == []
    ensures Only(values, set k | k in keys) == map[]
  {
  }

  lemma HeaderIsOneLine()
    ensures OneLine(Header()) && Tight(Header()) && Header()[0] == '#'
  {
    assert OneLine("# --- ") && OneLine("Additional ") && OneLine("(generated; ") && OneLine("not in ");
    assert OneLine(".env.") && OneLine("example) ") && OneLine("---");
    assert |Header()| == 53 && Header()[52] == '-';
  }

  lemma HeaderIsIgnored()
    ensures ParseLine("") == None && ParseLine(Header()) == None && Ignored(Strip("")) && Ignored(Strip(Header()))
    ensures OneLine("") && OneLine(Header())
  {
    HeaderIsOneLine();
    StripIs("", Header(), "");
    assert "" + Header() + "" == Header();
  }

  lemma LeftoverParses(keys: seq<string>, values: map<string, string>)
    requires forall k | k in keys :: k in values && IsIdentifier(k)
    ensures ParseLines(Leftover(keys, values)) == Only(values, set k | k in keys)
  {
    if keys == [] {
      assert Only(values, set k | k in keys) == map[];
    } else {
      HeaderIsIgnored();
      hide ParseLine;
      assert ["", Header()][..1] == [""] && [""][..0] == [];
      assert ParseLines(["", Header()]) == map[];
      ParseConcat(["", Header()], Assignments(keys, values));
      AssignmentsParse(keys, values);
    }
  }

  lemma OnlyCovers(values: map<string, string>, a: set<string>, b: set<string>)
    requires values.Keys <= a + b
    ensures Only(values, a) + Only(values, b) == values
  {
  }

  lemma OutputParses(lines: seq<string>, env: Env)
    requires env.Printable()
    ensures ParseLines(OutputLines(lines, env)) == ParseLines(lines) + env.values
  {
    var seen := Seen(lines, env);
    var unseen := Unseen(env.keys, seen);
    UnseenKeys(env.keys, seen);
    hide ParseLines, Only, RenderLines, Leftover, Seen, Unseen, IsIdentifier, OneLine;
    RenderedLinesParse(lines, env);
    LeftoverParses(unseen, env.values);
    ParseConcat(RenderLines(lines, env), Leftover(unseen, env.values));
    OnlyCovers(env.values, seen, set k | k in unseen);
    MapAssoc(ParseLines(lines), Only(env.values, seen), Only(env.values, set k | k in unseen));
  }

  lemma MapAssoc(a: map<string, string>, b: map<string, string>, c: map<string, string>)
    ensures a + b + c == a + (b + c)
  {
  }

  lemma AssignmentOneLine(k: string, v: string)
    requires IsIdentifier(k) && OneLine(v)
    ensures OneLine(Assignment(k, v))
  {
  }

  lemma RenderedLineIsLine(raw: string, env: Env)
    requires env.Printable() && OneLine(raw)
    ensures OneLine(RenderLine(raw, env))
  {
    RenderLineParses(raw, env);
    var k := OverriddenKey(raw, env);
    hide OverriddenKey, OneLine, Assignment, ParseLine;
    if k.Some? { AssignmentOneLine(k.value, env.values[k.value]); }
  }

  lemma {:induction false} RenderedLinesAreLines(lines: seq<string>, env: Env)
    requires env.Printable() && forall i :: 0 <= i < |lines| ==> OneLine(lines[i])
    ensures forall i :: 0 <= i < |lines| ==> RenderLines(lines, env)[i] == RenderLine(lines[i], env) && OneLine(RenderLines(lines, env)[i])
  {
    if lines != [] {
      var front := lines[..|lines| - 1];
      assert forall i :: 0 <= i < |front| ==> front[i] == lines[i];
      hide OneLine, RenderLine;
      RenderedLinesAreLines(front, env);
      RenderedLineIsLine(lines[|lines| - 1], env);
    }
  }

  lemma LeftoverAreLines(keys: seq<string>, values: map<string, string>)
    requires forall k | k in keys :: k in values && IsIdentifier(k) && OneLine(values[k])
    ensures forall i :: 0 <= i < |Leftover(keys, values)| ==> OneLine(Leftover(keys, values)[i])
  {
    HeaderIsIgnored();
    hide OneLine, IsIdentifier, Assignment;
    forall i | 0 <= i < |keys| ensures OneLine(Assignments(keys, values)[i]) {
      AssignmentOneLine(keys[i], values[keys[i]]);
    }
  }

  lemma OutputAreLines(lines: seq<string>, env: Env)
    requires env.Printable() && forall i :: 0 <= i < |lines| ==> OneLine(lines[i])
    ensures forall i :: 0 <= i < |OutputLines(lines, env)| ==> OneLine(OutputLines(lines, env)[i])
  {
    var unseen := Unseen(env.keys, Seen(lines, env));
    UnseenKeys(env.keys, Seen(lines, env));
    RenderedLinesAreLines(lines, env);
    LeftoverAreLines(unseen, env.values);
    hide OneLine, RenderLines, Leftover;
  }

  /** The lines of a rendered file; an empty output prints as one blank line. */
  lemma RenderedSplits(template: string, env: Env)
    requires env.Printable()
    ensures var out := OutputLines(SplitLines(template), env);
            SplitLines(RenderFromTemplate(template, env)) == if out == [] then [""] else out
  {
    var out := OutputLines(SplitLines(template), env);
    OutputAreLines(SplitLines(template), env);
    if out == [] {
      FirstLine("", "");
    } else {
      SplitJoined(out);
    }
  }

  // ---------------------------------------------------------------------------------------
  // The rendered file, line by line
  // ---------------------------------------------------------------------------------------

  lemma SetsIsPattern(raw: string, k: string)
    requires IsIdentifier(k)
    ensures Sets(raw, k) <==> AssignedKey(raw) == Some(k)
    ensures Sets(raw, k) ==> !Ignored(Strip(raw))
  {
    IdentifierIsKey(k);
    hide *;
    if Sets(raw, k) { SetsParses(raw, k); }
    PatternAgreesWithParser(raw, k);
    if AssignedKey(raw) == Some(k) {
      var w := ParsedIsAssigned(raw);
      SetsBy(raw, k, w);
    }
  }

  lemma SetsParses(raw: string, k: string)
    requires KeyText(k) && Sets(raw, k)
    ensures ParseLine(raw).Some? && ParseLine(raw).value.0 == k
  {
    var w :| Assigns(raw, k, w);
    hide *;
    ReadsOne(w, Unquote(w));
    AssignedIsParsed(raw, k, w, Unquote(w));
  }

  lemma SetsBy(raw: string, k: string, w: string)
    requires Assigns(raw, k, w)
    ensures Sets(raw, k)
  {
    hide Assigns;
  }

  lemma OverriddenIs(raw: string, env: Env, k: string)
    requires env.Printable() && k in env.values
    ensures OverriddenKey(raw, env) == Some(k) <==> Sets(raw, k)
  {
    SetsIsPattern(raw, k);
    hide Sets, AssignedKey, Ignored, Strip, OneLine;
  }

  lemma {:induction false} RenderLinesAt(lines: seq<string>, env: Env, i: nat)
    requires i < |lines|
    ensures RenderLines(lines, env)[i] == RenderLine(lines[i], env)
  {
    hide RenderLine;
    if i < |lines| - 1 { RenderLinesAt(lines[..|lines| - 1], env, i); }
  }

  /** Every line of the template stays where it is: rewritten as `k="v"` if it assigns a key of the environment, and
      unchanged, comments and spacing included, if not. */
  lemma RenderedLine(template: string, env: Env, i: nat)
    requires env.Printable() && i < |SplitLines(template)|
    ensures var raw, out := SplitLines(template)[i], SplitLines(RenderFromTemplate(template, env));
            && i < |out|
            && (forall k | k in env.values && Sets(raw, k) :: out[i] == k + "=\"" + env.values[k] + "\"")
            && ((forall k | k in env.values :: !Sets(raw, k)) ==> out[i] == raw)
  {
    var lines := SplitLines(template);
    var raw, out := lines[i], OutputLines(lines, env);
    assert out[i] == RenderLines(lines, env)[i];
    RenderLinesAt(lines, env, i);
    hide RenderLines, OutputLines, RenderFromTemplate, SplitLines;
    RenderedSplits(template, env);
    hide Sets;
    forall k | k in env.values ensures OverriddenKey(raw, env) == Some(k) <==> Sets(raw, k) { OverriddenIs(raw, env, k); }
    hide Strip, AssignedKey, Ignored, OneLine;
  }

  /** No line of the template assigns the key. */
  ghost predicate Unset(lines: seq<string>, k: string) {
    forall i | 0 <= i < |lines| :: !Sets(lines[i], k)
  }

  lemma {:induction false} SeenIff(lines: seq<string>, env: Env, k: string)
    requires env.Printable() && k in env.values
    ensures k !in Seen(lines, env) <==> Unset(lines, k)
  {
    hide Sets, OverriddenKey;
    if lines != [] {
      var n := |lines| - 1;
      SeenIff(lines[..n], env, k);
      OverriddenIs(lines[n], env, k);
      assert forall i | 0 <= i < n :: lines[..n][i] == lines[i];
      assert Unset(lines, k) <==> Unset(lines[..n], k) && !Sets(lines[n], k);
    }
  }

  /** How many of the first `i` keys no line assigns. */
  ghost function UnsetBefore(lines: seq<string>, keys: seq<string>, i: nat): nat
    requires i <= |keys|
  {
    if i == 0 then 0 else UnsetBefore(lines, keys, i - 1) + (if Unset(lines, keys[i - 1]) then 1 else 0)
  }

  lemma UnseenSnoc(keys: seq<string>, n: nat, seen: set<string>)
    requires n < |keys|
    ensures Unseen(keys[..n + 1], seen) == Unseen(keys[..n], seen) + (if keys[n] in seen then [] else [keys[n]])
  {
    assert keys[..n + 1][..n] == keys[..n];
  }

  lemma UnsetIsUnseen(lines: seq<string>, env: Env, i: nat)
    requires env.Printable() && i < |env.keys|
    ensures env.keys[i] !in Seen(lines, env) <==> Unset(lines, env.keys[i])
  {
    hide *;
    KeysHaveValues(env, i);
    SeenIff(lines, env, env.keys[i]);
  }

  lemma {:induction false} UnseenCount(lines: seq<string>, env: Env, n: nat)
    requires env.Printable() && n <= |env.keys|
    ensures |Unseen(env.keys[..n], Seen(lines, env))| == UnsetBefore(lines, env.keys, n)
  {
    if n > 0 {
      UnseenCount(lines, env, n - 1);
      UnseenSnoc(env.keys, n - 1, Seen(lines, env));
      hide Unseen, Unset, Seen, env.Printable;
      UnsetIsUnseen(lines, env, n - 1);
    }
  }

  lemma {:induction false} UnseenAt(lines: seq<string>, env: Env, i: nat, n: nat)
    requires env.Printable() && i < n <= |env.keys| && Unset(lines, env.keys[i])
    ensures var unseen := Unseen(env.keys[..n], Seen(lines, env));
            UnsetBefore(lines, env.keys, i) < |unseen| && unseen[UnsetBefore(lines, env.keys, i)] == env.keys[i]
    decreases n
  {
    hide *;
    UnseenSnoc(env.keys, n - 1, Seen(lines, env));
    if i < n - 1 {
      UnseenAt(lines, env, i, n - 1);
    } else {
      UnseenCount(lines, env, n - 1);
      UnsetIsUnseen(lines, env, n - 1);
    }
  }

  /** The keys that no line of the template assigns follow after it, below an empty line and a comment, each as `k="v"` and
      in the order of the environment. */
  lemma RenderedLeftover(template: string, env: Env, i: nat)
    requires env.Printable() && i < |env.keys| && Unset(SplitLines(template), env.keys[i])
    ensures env.keys[i] in env.values
    ensures var lines := SplitLines(template);
            WrittenAs(SplitLines(RenderFromTemplate(template, env)), |lines| + 2 + UnsetBefore(lines, env.keys, i), env.keys[i], env.values[env.keys[i]])
  {
    hide *;
    var lines := SplitLines(template);
    KeysHaveValues(env, i);
    RenderedSplits(template, env);
    UnseenAt(lines, env, i, |env.keys|);
    OutputAt(lines, env, UnsetBefore(lines, env.keys, i));
  }

  lemma KeysHaveValues(env: Env, i: nat)
    requires env.Printable() && i < |env.keys|
    ensures env.Valid() && env.keys[i] in env.values && env.keys[..|env.keys|] == env.keys
  {
    hide IsIdentifier, OneLine;
    assert env.keys[i] in env.keys;
  }

  /** Line `at` is `k="v"`. */
  predicate WrittenAs(out: seq<string>, at: nat, k: string, v: string) {
    at < |out| && out[at] == k + "=\"" + v + "\""
  }

  lemma OutputAt(lines: seq<string>, env: Env, c: nat)
    requires env.Valid() && c < |Unseen(env.keys, Seen(lines, env))|
    ensures var k, out := Unseen(env.keys, Seen(lines, env))[c], OutputLines(lines, env);
            k in env.values && out != [] && WrittenAs(out, |lines| + 2 + c, k, env.values[k])
  {
    var unseen := Unseen(env.keys, Seen(lines, env));
    UnseenKeys(env.keys, Seen(lines, env));
    hide RenderLines, Header, Unseen, Seen;
    assert unseen[c] in env.values;
    assert OutputLines(lines, env) == RenderLines(lines, env) + (["", Header()] + Assignments(unseen, env.values));
    assert (["", Header()] + Assignments(unseen, env.values))[2 + c] == Assignments(unseen, env.values)[c];
  }

  /** Parsing the rendered template gives the parsed template overlaid with the environment: for every template, and
      every environment with identifier keys and values free of line breaks. */
  lemma ParseOfRender(template: string, env: Env)
    requires env.Printable()
    ensures ParseEnv(RenderFromTemplate(template, env)) == ParseEnv(template) + env.values
  {
    RenderedSplits(template, env);
    OutputParses(SplitLines(template), env);
    HeaderIsIgnored();
    assert [""][..0] == [];
  }

  // ---------------------------------------------------------------------------------------
  // Rendering twice
  // ---------------------------------------------------------------------------------------

  lemma RenderLineTwice(raw: string, env: Env)
    requires env.Printable()
    ensures RenderLine(RenderLine(raw, env), env) == RenderLine(raw, env)
    ensures OverriddenKey(RenderLine(raw, env), env) == OverriddenKey(raw, env)
  {
    RenderLineParses(raw, env);
    var k := OverriddenKey(raw, env);
    if k.Some? { AssignmentReadsBack(k.value, env.values[k.value]); }
  }

  lemma {:induction false} RenderLinesTwice(lines: seq<string>, env: Env)
    requires env.Printable()
    ensures RenderLines(RenderLines(lines, env), env) == RenderLines(lines, env)
    ensures Seen(RenderLines(lines, env), env) == Seen(lines, env)
  {
    if lines != [] {
      var front, last, out := lines[..|lines| - 1], lines[|lines| - 1], RenderLines(lines, env);
      RenderLinesTwice(front, env);
      RenderLineTwice(last, env);
      hide RenderLine, OverriddenKey;
      assert out[..|out| - 1] == RenderLines(front, env) && out[|out| - 1] == RenderLine(last, env);
    }
  }

  lemma {:induction false} RenderConcat(a: seq<string>, b: seq<string>, env: Env)
    ensures RenderLines(a + b, env) == RenderLines(a, env) + RenderLines(b, env)
    ensures Seen(a + b, env) == Seen(a, env) + Seen(b, env)
  {
    if b == [] {
      assert a + b == a;
    } else {
      assert (a + b)[..|a + b| - 1] == a + b[..|b| - 1];
      hide RenderLine, OverriddenKey;
      RenderConcat(a, b[..|b| - 1], env);
    }
  }

  lemma AssignmentOverridden(k: string, env: Env)
    requires env.Printable() && k in env.values
    ensures OverriddenKey(Assignment(k, env.values[k]), env) == Some(k)
  {
    AssignmentReadsBack(k, env.values[k]);
    hide Assignment, AssignedKey, Strip, ParseLine;
  }

  lemma {:induction false} AssignmentsStay(keys: seq<string>, env: Env)
    requires env.Printable() && forall k | k in keys :: k in env.values
    ensures RenderLines(Assignments(keys, env.values), env) == Assignments(keys, env.values)
    ensures Seen(Assignments(keys, env.values), env) == set k | k in keys
  {
    if keys != [] {
      var front, last := keys[..|keys| - 1], keys[|keys| - 1];
      assert keys == front + [last];
      var out := Assignments(keys, env.values);
      assert out[..|out| - 1] == Assignments(front, env.values) && out[|out| - 1] == Assignment(last, env.values[last]);
      AssignmentOverridden(last, env);
      hide OverriddenKey, Assignment, IsIdentifier, OneLine, AssignedKey, Strip, ParseLine;
      AssignmentsStay(front, env);
    }
  }

  lemma TopStays(env: Env)
    ensures var top := ["", Header()]; RenderLines(top, env) == top && Seen(top, env) == {}
  {
    HeaderIsIgnored();
    hide Header, Strip;
    var top := ["", Header()];
    assert top[..1] == [""] && [""][..0] == [];
    assert RenderLines([""], env) == [""] && Seen([""], env) == {};
  }

  lemma LeftoverStays(keys: seq<string>, env: Env)
    requires env.Printable() && forall k | k in keys :: k in env.values
    ensures RenderLines(Leftover(keys, env.values), env) == Leftover(keys, env.values)
    ensures Seen(Leftover(keys, env.values), env) == set k | k in keys
  {
    if keys != [] {
      TopStays(env);
      AssignmentsStay(keys, env);
      hide Header, RenderLines, Seen, Assignments;
      RenderConcat(["", Header()], Assignments(keys, env.values), env);
    }
  }

  lemma {:induction false} NothingUnseen(keys: seq<string>, seen: set<string>)
    requires forall k | k in keys :: k in seen
    ensures Unseen(keys, seen) == []
  {
    if keys != [] { NothingUnseen(keys[..|keys| - 1], seen); }
  }

  lemma OutputTwice(lines: seq<string>, env: Env)
    requires env.Printable()
    ensures OutputLines(OutputLines(lines, env), env) == OutputLines(lines, env)
  {
    var seen, out := Seen(lines, env), OutputLines(lines, env);
    var unseen := Unseen(env.keys, seen);
    UnseenKeys(env.keys, seen);
    RenderLinesTwice(lines, env);
    LeftoverStays(unseen, env);
    RenderConcat(RenderLines(lines, env), Leftover(unseen, env.values), env);
    NothingUnseen(env.keys, Seen(out, env));
  }

  /** Rendering the result again with the same environment changes nothing. */
  lemma RenderTwice(template: string, env: Env)
    requires env.Printable()
    ensures RenderFromTemplate(RenderFromTemplate(template, env), env) == RenderFromTemplate(template, env)
  {
    var out := OutputLines(SplitLines(template), env);
    RenderedSplits(template, env);
    OutputTwice(SplitLines(template), env);
    if out == [] {
      EmptyOutput(SplitLines(template), env);
    }
  }

  lemma EmptyOutput(lines: seq<string>, env: Env)
    requires env.Printable() && OutputLines(lines, env) == []
    ensures OutputLines([""], env) == [""]
  {
    assert lines == [] && Unseen(env.keys, {}) == [];
    assert [""][..0] == [];
  }

  // ---------------------------------------------------------------------------------------
  // The flat printer, and secrets kept across a regeneration
  // ---------------------------------------------------------------------------------------

  /** One assignment per line, for when there is no template. */
  function RenderFlat(env: Env): string
    requires env.Valid()
  {
    Concat(Assignments(env.keys, env.values))
  }

  function Concat(lines: seq<string>): string {
    if lines == [] then "" else lines[0] + "\n" + Concat(lines[1..])
  }

  lemma {:induction false} SplitConcat(lines: seq<string>)
    requires forall i :: 0 <= i < |lines| ==> OneLine(lines[i])
    ensures SplitLines(Concat(lines)) == lines
  {
    if lines != [] {
      SplitConcat(lines[1..]);
      FirstLine(lines[0], Concat(lines[1..]));
    }
  }

  /** Parsing the flat rendering gives the environment back. */
  lemma ParseOfRenderFlat(env: Env)
    requires env.Printable()
    ensures ParseEnv(RenderFlat(env)) == env.values
  {
    forall i | 0 <= i < |env.keys| ensures OneLine(Assignments(env.keys, env.values)[i]) {
      AssignmentOneLine(env.keys[i], env.values[env.keys[i]]);
    }
    SplitConcat(Assignments(env.keys, env.values));
    AssignmentsParse(env.keys, env.values);
    assert Only(env.values, set k | k in env.keys) == env.values;
  }

  const PRESERVE_KEYS := ["SECRET_ENCRYPTION_KEY", "LOG_ENCRYPTION_KEY", "POSTGRES_PASSWORD", "PG_ADMIN_PASSWORD", "DATABASE_URL"]

  predicate Preserves(existing: map<string, string>, k: string) {
    k in existing && existing[k] != ""
  }

  /** `generated` with each of `keys` overridden by a non-empty existing value. */
  method MergePreserve(existing: map<string, string>, generated: Env, keys: seq<string>) returns (out: Env)
    requires generated.Valid()
    ensures out.Valid() && generated.keys <= out.keys
    ensures forall k :: k in out.values <==> k in generated.values || (k in keys && Preserves(existing, k))
    ensures forall k | k in out.values :: out.values[k] == if k in keys && Preserves(existing, k) then existing[k] else generated.values[k]
  {
    out := generated;
    for i := 0 to |keys|
      invariant out.Valid() && generated.keys <= out.keys
      invariant forall k :: k in out.values <==> k in generated.values || (k in keys[..i] && Preserves(existing, k))
      invariant forall k | k in out.values :: out.values[k] == if k in keys[..i] && Preserves(existing, k) then existing[k] else generated.values[k]
    {
      var k := keys[i];
      assert keys[..i + 1] == keys[..i] + [k];
      if Preserves(existing, k) {
        out := Env(if k in out.values then out.keys else out.keys + [k], out.values[k := existing[k]]);
      }
    }
    assert keys[..|keys|] == keys;
  }

  lemma ParsedValueOneLine(raw: string)
    requires OneLine(raw) && ParseLine(raw).Some?
    ensures OneLine(ParseLine(raw).value.1)
  {
    var line := Strip(raw);
    var i := IndexOf(line, '=');
    StripOneLine(raw);
    StripOneLine(line[i + 1..]);
  }

  lemma {:induction false} ParsedValuesOneLine(lines: seq<string>)
    requires forall i :: 0 <= i < |lines| ==> OneLine(lines[i])
    ensures forall k | k in ParseLines(lines) :: OneLine(ParseLines(lines)[k])
  {
    if lines != [] {
      var last := lines[|lines| - 1];
      ParsedValuesOneLine(lines[..|lines| - 1]);
      if ParseLine(last).Some? { ParsedValueOneLine(last); }
      hide ParseLine, OneLine;
    }
  }

  /** Regenerating over any existing file keeps every preserved secret it sets, verbatim, and gives every other
      generated key its new value. */
  method Regenerate(oldText: string, generated: Env, template: string) returns (text: string)
    requires generated.Printable()
    ensures var before, after := ParseEnv(oldText), ParseEnv(text);
            && (forall k | k in PRESERVE_KEYS && Preserves(before, k) :: k in after && after[k] == before[k])
            && (forall k | k in generated.values && !(k in PRESERVE_KEYS && Preserves(before, k)) :: k in after && after[k] == generated.values[k])
            && (forall k | k in after :: k in generated.values || k in PRESERVE_KEYS || k in ParseEnv(template))
    ensures forall k, v | k in ["SECRET_ENCRYPTION_KEY", "LOG_ENCRYPTION_KEY", "POSTGRES_PASSWORD", "PG_ADMIN_PASSWORD", "DATABASE_URL"]
                          && v != "" && LastValue(SplitLines(oldText), k, v) ::
              LastValue(SplitLines(text), k, v)
  {
    var existing := ParseEnvText(oldText);
    var env := MergePreserve(existing, generated, PRESERVE_KEYS);
    ParsedValuesOneLine(SplitLines(oldText));
    assert env.Printable() by { PreservedAreIdentifiers(); }
    text := RenderEnvFromTemplate(template, env);
    ParseOfRender(template, env);
    forall k, v | k in PRESERVE_KEYS && v != "" && LastValue(SplitLines(oldText), k, v)
      ensures LastValue(SplitLines(text), k, v)
    {
      PreservedAreIdentifiers();
      IdentifierIsKey(k);
      hide *;
      FileReads(oldText, k, v);
      FileReads(text, k, v);
    }
  }

  lemma PreservedAreIdentifiers()
    ensures forall k | k in PRESERVE_KEYS :: IsIdentifier(k)
  {
  }
}
