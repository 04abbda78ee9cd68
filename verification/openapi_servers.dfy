/** The rewrite of an OpenAPI document's `servers:` block around the request's own origin
    (server/internal/app/openapi_spec.go). */
module OpenApiServers {
  const SERVERS_KEY := "servers:"
  const CLOUD_URL := "https://solidping.io"

  type Lines = seq<string>

  // ---- Lines --------------------------------------------------------------------------------------------

  predicate OneLine(line: string) {
    '\n' !in line
  }

  /** strings.Split on newlines. */
  function Split(text: string): (lines: Lines)
    ensures lines != []
    ensures forall i | 0 <= i < |lines| :: OneLine(lines[i])
  {
    if text == [] then [[]]
    else
      var rest := Split(text[1..]);
      if text[0] == '\n' then [[]] + rest else [[text[0]] + rest[0]] + rest[1..]
  }

  /** strings.Join with newlines. */
  function Join(lines: Lines): string
    requires lines != []
  {
    if |lines| == 1 then lines[0] else lines[0] + "\n" + Join(lines[1..])
  }

  // ---- The origin ---------------------------------------------------------------------------------------

  /** The characters of hostAllowedChars. */
  predicate HostChar(c: char) {
    'a' <= c <= 'z' || 'A' <= c <= 'Z' || '0' <= c <= '9' || c in ".-_:[]"
  }

  /** "://" at index i of s. */
  predicate SeparatorAt(s: string, i: nat) {
    i + 3 <= |s| && s[i] == ':' && s[i + 1] == '/' && s[i + 2] == '/'
  }

  /** The index of the first "://" at or after i, or |s|. */
  function SchemeEnd(s: string, i: nat): (r: nat)
    requires i <= |s|
    ensures i <= r <= |s|
    ensures r < |s| ==> SeparatorAt(s, r)
    ensures forall j | i <= j < r :: !SeparatorAt(s, j)
    decreases |s| - i
  {
    if i == |s| || SeparatorAt(s, i) then i else SchemeEnd(s, i + 1)
  }

  predicate IsSafeOrigin(origin: string) {
    var i := SchemeEnd(origin, 0);
    && i < |origin| && i + 3 < |origin|
    && (origin[..i] == "http" || origin[..i] == "https")
    && forall j | i + 3 <= j < |origin| :: HostChar(origin[j])
  }

  function Lower(c: char): char {
    if 'A' <= c <= 'Z' then (c as int + 32) as char else c
  }

  /** strings.EqualFold over ASCII, which a safe origin is. */
  predicate EqualFold(s: string, t: string) {
    |s| == |t| && forall i | 0 <= i < |s| :: Lower(s[i]) == Lower(t[i])
  }

  // ---- The rewrite --------------------------------------------------------------------------------------

  /** The first line equal to key at or after i, or |lines|. */
  function KeyLine(lines: Lines, key: string, i: nat): (r: nat)
    requires i <= |lines|
    ensures i <= r <= |lines|
    ensures r < |lines| ==> lines[r] == key
    ensures forall j | i <= j < r :: lines[j] != key
    decreases |lines| - i
  {
    if i == |lines| || lines[i] == key then i else KeyLine(lines, key, i + 1)
  }

  predicate TopLevel(line: string) {
    line != "" && line[0] != ' ' && line[0] != '\t'
  }

  /** The first top-level line at or after i, or |lines|. */
  function BlockEnd(lines: Lines, i: nat): (r: nat)
    requires i <= |lines|
    ensures i <= r <= |lines|
    ensures r < |lines| ==> TopLevel(lines[r])
    ensures forall j | i <= j < r :: !TopLevel(lines[j])
    decreases |lines| - i
  {
    if i == |lines| || TopLevel(lines[i]) then i else BlockEnd(lines, i + 1)
  }

  /** The number of blank lines that end lines[start + 1..end]. */
  function Blanks(lines: Lines, start: nat, end: nat): (n: nat)
    requires start < end <= |lines|
    ensures n < end - start
    ensures forall j | end - n <= j < end :: lines[j] == ""
    ensures end - n - 1 > start ==> lines[end - n - 1] != ""
    decreases end
  {
    if end - 1 > start && lines[end - 1] == "" then 1 + Blanks(lines, start, end - 1) else 0
  }

  /** A block of lines that are neither blank nor top-level. */
  ghost predicate Indented(block: Lines) {
    forall i | 0 <= i < |block| :: !TopLevel(block[i]) && block[i] != ""
  }

  ghost predicate OneLineEach(lines: Lines) {
    forall i | 0 <= i < |lines| :: OneLine(lines[i])
  }

  function Servers(origin: string): (block: Lines)
    ensures Indented(block)
    ensures OneLine(origin) ==> OneLineEach(block)
  {
    ["  - url: " + origin, "    description: This server"]
    + if EqualFold(origin, CLOUD_URL) then []
      else ["  - url: " + CLOUD_URL, "    description: SolidPing cloud"]
  }

  function BlankLines(n: nat): (blanks: Lines)
    ensures |blanks| == n && forall i | 0 <= i < n :: blanks[i] == ""
  {
    if n == 0 then [] else BlankLines(n - 1) + [""]
  }

  /** The document with the block of the key at `start` replaced, its trailing blank lines kept in number. */
  function Rebuilt(lines: Lines, start: nat, block: Lines): (out: Lines)
    requires start < |lines|
    ensures out != []
  {
    var end := BlockEnd(lines, start + 1);
    ((lines[..start + 1] + block) + BlankLines(Blanks(lines, start, end))) + lines[end..]
  }

  /** The document with the block of `key` replaced, if it has one. */
  function Replaced(spec: string, key: string, block: Lines): string {
    var lines := Split(spec);
    var start := KeyLine(lines, key, 0);
    if start == |lines| then spec else Join(Rebuilt(lines, start, block))
  }

  function Rewrite(spec: string, origin: string): string {
    if IsSafeOrigin(origin) then Replaced(spec, SERVERS_KEY, Servers(origin)) else spec
  }

  method RewriteOpenAPIServers(spec: string, origin: string) returns (out: string)
    ensures out == Rewrite(spec, origin)
  {
    if !IsSafeOrigin(origin) {
      return spec;
    }
    var block := ["  - url: " + origin, "    description: This server"];
    if !EqualFold(origin, CLOUD_URL) {
      block := block + ["  - url: " + CLOUD_URL, "    description: SolidPing cloud"];
    }
    assert block == Servers(origin);
    out := ReplaceBlock(spec, SERVERS_KEY, block);
  }

  method ReplaceBlock(spec: string, key: string, block: Lines) returns (out: string)
    ensures out == Replaced(spec, key, block)
  {
    var lines := Split(spec);
    var start := FindKeyLine(lines, key);
    if start == -1 {
      return spec;
    }
    var rebuilt := Rebuild(lines, start, block);
    return Join(rebuilt);
  }

  /** The lines with the block of the key at `start` replaced. */
  method Rebuild(lines: Lines, start: nat, block: Lines) returns (rebuilt: Lines)
    requires start < |lines|
    ensures rebuilt == Rebuilt(lines, start, block)
  {
    var end, blanks := MeasureBlock(lines, start);
    rebuilt := AppendBlanks(lines[..start + 1] + block, blanks);
    rebuilt := rebuilt + lines[end..];
  }

  /** The loop that puts the blank lines back. */
  method AppendBlanks(head: Lines, blanks: nat) returns (rebuilt: Lines)
    ensures rebuilt == head + BlankLines(blanks)
  {
    rebuilt := head;
    for k := 0 to blanks
      invariant rebuilt == head + BlankLines(k)
    {
      rebuilt := rebuilt + [""];
    }
  }

  /** The loop that finds the key, -1 when there is none. */
  method FindKeyLine(lines: Lines, key: string) returns (start: int)
    ensures start == if KeyLine(lines, key, 0) < |lines| then KeyLine(lines, key, 0) else -1
  {
    start := -1;
    for i := 0 to |lines|
      invariant start == -1 && KeyLine(lines, key, 0) == KeyLine(lines, key, i)
    {
      if lines[i] == key {
        return i;
      }
    }
  }

  /** The loops that find the end of the block and count the blank lines before it. */
  method MeasureBlock(lines: Lines, start: nat) returns (end: nat, blanks: nat)
    requires start < |lines|
    ensures end == BlockEnd(lines, start + 1)
    ensures blanks == Blanks(lines, start, end)
  {
    end := |lines|;
    for i := start + 1 to |lines|
      invariant end == |lines| && BlockEnd(lines, start + 1) == BlockEnd(lines, i)
    {
      if TopLevel(lines[i]) {
        end := i;
        break;
      }
    }
    blanks := 0;
    var i := end - 1;
    while i > start && lines[i] == ""
      invariant start <= i < end
      invariant Blanks(lines, start, end) == blanks + Blanks(lines, start, i + 1)
    {
      blanks := blanks + 1;
      i := i - 1;
    }
  }

  // ---- What it keeps -------------------------------------------------------------------------------------

  lemma {:induction false} JoinSplit(text: string)
    ensures Join(Split(text)) == text
  {
    if text != [] {
      JoinSplit(text[1..]);
      var rest := Split(text[1..]);
      if text[0] == '\n' {
        assert ([[]] + rest)[1..] == rest;
      } else {
        assert ([[text[0]] + rest[0]] + rest[1..])[1..] == rest[1..];
      }
    }
  }

  lemma {:induction false} SplitPrefix(line: string, text: string)
    requires OneLine(line)
    ensures Split(line + "\n" + text) == [line] + Split(text)
    ensures Split(line) == [line]
  {
    if line == [] {
      assert (line + "\n" + text)[1..] == text;
    } else {
      SplitPrefix(line[1..], text);
      assert (line + "\n" + text)[1..] == line[1..] + "\n" + text;
      assert [line[0]] + line[1..] == line;
    }
  }

  lemma {:induction false} SplitJoin(lines: Lines)
    requires lines != [] && forall i | 0 <= i < |lines| :: OneLine(lines[i])
    ensures Split(Join(lines)) == lines
  {
    if |lines| == 1 {
      SplitPrefix(lines[0], "");
    } else {
      SplitPrefix(lines[0], Join(lines[1..]));
      SplitJoin(lines[1..]);
    }
  }

  /** The characters hostAllowedChars lists. */
  predicate Allowed(c: char) {
    || c in "abcdefghijklmnopqrstuvwxyz" || c in "ABCDEFGHIJKLMNOPQRSTUVWXYZ"
    || c in "0123456789" || c in ".-_:[]"
  }

  lemma AllowedExactly(c: char)
    ensures HostChar(c) <==> Allowed(c)
  {
  }

  ghost predicate SafeHost(host: string) {
    host != "" && forall j | 0 <= j < |host| :: Allowed(host[j])
  }

  lemma SafeHostExactly(host: string)
    ensures SafeHost(host) <==> host != "" && forall j | 0 <= j < |host| :: HostChar(host[j])
  {
    forall j | 0 <= j < |host| ensures HostChar(host[j]) <==> Allowed(host[j]) {
      AllowedExactly(host[j]);
    }
  }

  const SEPARATOR := "://"

  ghost predicate IsOrigin(origin: string, scheme: string, host: string) {
    (scheme == "http" || scheme == "https") && SafeHost(host) && origin == (scheme + SEPARATOR) + host
  }

  /** An origin is safe exactly when it is http or https, "://" and a host of allowed characters. */
  lemma SafeOriginExactly(origin: string)
    ensures IsSafeOrigin(origin) <==> exists scheme, host :: IsOrigin(origin, scheme, host)
  {
    if IsSafeOrigin(origin) {
      SafeOriginSplits(origin);
    }
    if scheme, host :| IsOrigin(origin, scheme, host) {
      SafeHostExactly(host);
      OriginIsSafe(origin, scheme, host);
    }
  }

  lemma SafeOriginSplits(origin: string)
    requires IsSafeOrigin(origin)
    ensures exists scheme, host :: IsOrigin(origin, scheme, host)
  {
    var i := SchemeEnd(origin, 0);
    var scheme, host := origin[..i], origin[i + 3..];
    assert origin == (scheme + SEPARATOR) + host;
    SafeHostExactly(host);
    assert IsOrigin(origin, scheme, host);
  }

  lemma OriginIsSafe(origin: string, scheme: string, host: string)
    requires (scheme == "http" || scheme == "https") && origin == (scheme + SEPARATOR) + host
    requires host != "" && forall j | 0 <= j < |host| :: HostChar(host[j])
    ensures IsSafeOrigin(origin)
  {
    SchemeFound(origin, scheme, host);
    assert forall j | |scheme| + 3 <= j < |origin| :: origin[j] == host[j - |scheme| - 3];
  }

  lemma SchemeFound(origin: string, scheme: string, host: string)
    requires scheme == "http" || scheme == "https"
    requires origin == (scheme + SEPARATOR) + host
    ensures SchemeEnd(origin, 0) == |scheme|
    ensures origin[..|scheme|] == scheme
  {
    assert SeparatorAt(origin, |scheme|);
    assert forall j | 0 <= j < |scheme| :: origin[j] == scheme[j] && scheme[j] != ':';
  }

  /** A safe origin cannot bring a line of its own. */
  lemma SafeOriginIsOneLine(origin: string)
    requires IsSafeOrigin(origin)
    ensures OneLine(origin)
  {
    var i := SchemeEnd(origin, 0);
    assert OneLine(origin[..i]);
    assert forall j | 0 <= j < i :: origin[j] == origin[..i][j];
    assert forall j | i + 3 <= j < |origin| :: HostChar(origin[j]);
  }

  lemma SplitReplaced(spec: string, key: string, block: Lines)
    requires OneLineEach(block) && KeyLine(Split(spec), key, 0) < |Split(spec)|
    ensures Split(Replaced(spec, key, block)) == Rebuilt(Split(spec), KeyLine(Split(spec), key, 0), block)
  {
    var lines := Split(spec);
    RebuiltOneLineEach(lines, KeyLine(lines, key, 0), block);
    SplitJoin(Rebuilt(lines, KeyLine(lines, key, 0), block));
  }

  lemma RebuiltOneLineEach(lines: Lines, start: nat, block: Lines)
    requires start < |lines| && OneLineEach(lines) && OneLineEach(block)
    ensures OneLineEach(Rebuilt(lines, start, block))
  {
    Pieces(lines, start, block);
  }

  lemma {:induction false} BlankLinesEnd(lines: Lines, start: nat, end: nat, n: nat)
    requires start + n < end <= |lines|
    requires forall j | end - n <= j < end :: lines[j] == ""
    requires end - n - 1 > start ==> lines[end - n - 1] != ""
    ensures Blanks(lines, start, end) == n
    decreases n
  {
    if n > 0 {
      BlankLinesEnd(lines, start, end - 1, n - 1);
    }
  }

  /** Where the pieces of a rebuilt document start. */
  lemma Pieces(lines: Lines, start: nat, block: Lines)
    requires start < |lines|
    ensures var end := BlockEnd(lines, start + 1);
            var n, out := Blanks(lines, start, end), Rebuilt(lines, start, block);
            var end' := start + 1 + |block| + n;
            && |out| == end' + (|lines| - end)
            && (forall j | 0 <= j <= start :: out[j] == lines[j])
            && (forall j | start < j < start + 1 + |block| :: out[j] == block[j - start - 1])
            && (forall j | start + 1 + |block| <= j < end' :: out[j] == "")
            && (forall j | end' <= j < |out| :: out[j] == lines[j - end' + end])
  {
  }

  lemma RebuiltEnds(lines: Lines, start: nat, block: Lines)
    requires start < |lines| && Indented(block)
    ensures var n, out := Blanks(lines, start, BlockEnd(lines, start + 1)), Rebuilt(lines, start, block);
            var end' := BlockEnd(out, start + 1);
            && end' == start + 1 + |block| + n
            && Blanks(out, start, end') == n
  {
    Pieces(lines, start, block);
    var end := BlockEnd(lines, start + 1);
    var n, out := Blanks(lines, start, end), Rebuilt(lines, start, block);
    var end' := start + 1 + |block| + n;
    forall j | start < j < end' ensures !TopLevel(out[j]) {
      if j < start + 1 + |block| {
        assert out[j] == block[j - start - 1];
      }
    }
    assert end' < |out| ==> out[end'] == lines[end];
    if block != [] {
      assert out[end' - n - 1] == block[|block| - 1];
    }
    BlankLinesEnd(out, start, end', n);
  }

  /** Out is lines with `block` between the start-th line and the line `end`, over n lines kept blank. */
  ghost predicate KeepsAround(lines: Lines, out: Lines, block: Lines, start: nat, end: nat, n: nat) {
    && start < |lines| && end <= |lines| && start + 1 + |block| + n <= |out|
    && out[..start + 1] == lines[..start + 1]
    && out[start + 1..start + 1 + |block|] == block
    && out[start + 1 + |block| + n..] == lines[end..]
  }

  /** The block of the key at `start` replaced, and as many blank lines after it as before. */
  ghost predicate FramesAt(lines: Lines, out: Lines, block: Lines, start: nat)
    requires start < |lines| && start < |out|
  {
    var end, end' := BlockEnd(lines, start + 1), BlockEnd(out, start + 1);
    var n := Blanks(lines, start, end);
    && end' == start + 1 + |block| + n && Blanks(out, start, end') == n
    && KeepsAround(lines, out, block, start, end, n)
  }

  /** What a replacement keeps of the lines: everything up to the key and from the next top-level line on,
      and as many blank lines before it, around the new block. */
  ghost predicate Frames(lines: Lines, out: Lines, key: string, block: Lines) {
    var start := KeyLine(lines, key, 0);
    && start < |lines| && start < |out| && KeyLine(out, key, 0) == start
    && FramesAt(lines, out, block, start)
  }

  lemma RebuiltFrames(lines: Lines, key: string, block: Lines)
    requires KeyLine(lines, key, 0) < |lines| && Indented(block)
    ensures Frames(lines, Rebuilt(lines, KeyLine(lines, key, 0), block), key, block)
  {
    KeyKept(lines, key, block);
    RebuiltFramesAt(lines, KeyLine(lines, key, 0), block);
  }

  lemma RebuiltFramesAt(lines: Lines, start: nat, block: Lines)
    requires start < |lines| && Indented(block)
    ensures start < |Rebuilt(lines, start, block)| && FramesAt(lines, Rebuilt(lines, start, block), block, start)
  {
    RebuiltEnds(lines, start, block);
    SlicesKept(lines, start, block);
  }

  lemma KeyKept(lines: Lines, key: string, block: Lines)
    requires KeyLine(lines, key, 0) < |lines|
    ensures var start := KeyLine(lines, key, 0);
            var out := Rebuilt(lines, start, block);
            start < |out| && KeyLine(out, key, 0) == start
  {
    Pieces(lines, KeyLine(lines, key, 0), block);
  }

  lemma SlicesKept(lines: Lines, start: nat, block: Lines)
    requires start < |lines|
    ensures var end := BlockEnd(lines, start + 1);
            var n, out := Blanks(lines, start, end), Rebuilt(lines, start, block);
            KeepsAround(lines, out, block, start, end, n)
  {
    Pieces(lines, start, block);
  }

  /** Replacing again replaces the replacement. */
  lemma RebuiltAgain(lines: Lines, key: string, one: Lines, other: Lines)
    requires KeyLine(lines, key, 0) < |lines| && Indented(one)
    ensures var start := KeyLine(lines, key, 0);
            var out := Rebuilt(lines, start, one);
            KeyLine(out, key, 0) == start && start < |out| && Rebuilt(out, start, other) == Rebuilt(lines, start, other)
  {
    RebuiltFrames(lines, key, one);
  }

  /** Framing: re-splitting the rewritten document gives exactly the lines that were built, which keep
      everything around the block. */
  lemma RewriteFrames(spec: string, origin: string)
    requires IsSafeOrigin(origin) && KeyLine(Split(spec), SERVERS_KEY, 0) < |Split(spec)|
    ensures Frames(Split(spec), Split(Rewrite(spec, origin)), SERVERS_KEY, Servers(origin))
  {
    SafeOriginIsOneLine(origin);
    SplitReplaced(spec, SERVERS_KEY, Servers(origin));
    RebuiltFrames(Split(spec), SERVERS_KEY, Servers(origin));
  }

  // ---- What the rewritten document says --------------------------------------------------------------------

  /** The servers: key, the first of its kind. */
  ghost predicate IsKey(lines: Lines, start: nat) {
    start < |lines| && lines[start] == "servers:" && forall j | 0 <= j < start :: lines[j] != "servers:"
  }

  /** A line within a block: blank, or indented by a space or a tab. */
  predicate Inside(line: string) {
    |line| == 0 || line[0] in " \t"
  }

  /** The block after the line start runs up to the line end, and its last n lines are its blank ones. */
  ghost predicate IsBlock(lines: Lines, start: nat, end: nat, n: nat) {
    && start < end <= |lines| && n < end - start
    && (forall j | start < j < end :: Inside(lines[j]))
    && (end < |lines| ==> !Inside(lines[end]))
    && (forall j | end - n <= j < end :: lines[j] == "")
    && (end - n - 1 == start || lines[end - n - 1] != "")
  }

  /** Two characters equal but for the case of a letter. */
  predicate SameLetter(c: char, d: char) {
    c == d || ('A' <= c <= 'Z' && d as int == c as int + 32) || ('A' <= d <= 'Z' && c as int == d as int + 32)
  }

  /** The cloud's own origin, up to case. */
  ghost predicate IsCloud(origin: string) {
    var cloud := "https://solidping.io";
    |origin| == |cloud| && forall i | 0 <= i < |cloud| :: SameLetter(origin[i], cloud[i])
  }

  /** The lines listed for an origin: its own server first, then the cloud unless that is the origin. */
  ghost predicate Lists(block: Lines, origin: string) {
    && |block| == (if IsCloud(origin) then 2 else 4)
    && block[0] == "  - url: " + origin && block[1] == "    description: This server"
    && (|block| == 4 ==> block[2] == "  - url: https://solidping.io" && block[3] == "    description: SolidPing cloud")
  }

  lemma ServersList(origin: string)
    ensures Lists(Servers(origin), origin)
  {
    assert IsCloud(origin) <==> EqualFold(origin, CLOUD_URL);
    assert "  - url: " + CLOUD_URL == "  - url: https://solidping.io";
  }

  lemma IsKeyLine(lines: Lines, start: nat)
    requires IsKey(lines, start)
    ensures KeyLine(lines, SERVERS_KEY, 0) == start
  {
  }

  lemma IsBlockEnd(lines: Lines, start: nat, end: nat, n: nat)
    requires IsBlock(lines, start, end, n)
    ensures BlockEnd(lines, start + 1) == end && Blanks(lines, start, end) == n
  {
    assert forall j | start < j < end :: !TopLevel(lines[j]);
    BlankLinesEnd(lines, start, end, n);
  }

  /** The rewritten document, line by line: the lines up to the key, the servers of the origin, as many blank
      lines as the block ended with, and every line from the end of the block on. */
  ghost predicate SaysServers(lines: Lines, out: Lines, origin: string, start: nat, end: nat, n: nat)
    requires IsBlock(lines, start, end, n)
  {
    exists block :: Lists(block, origin)
      && KeepsAround(lines, out, block, start, end, n)
      && forall j | start + |block| < j <= start + |block| + n :: out[j] == ""
  }

  lemma RebuiltSays(lines: Lines, origin: string, start: nat, end: nat, n: nat)
    requires IsBlock(lines, start, end, n)
    ensures SaysServers(lines, Rebuilt(lines, start, Servers(origin)), origin, start, end, n)
  {
    var block := Servers(origin);
    IsBlockEnd(lines, start, end, n);
    ServersList(origin);
    SlicesKept(lines, start, block);
    Pieces(lines, start, block);
  }

  /** What a rewrite writes, exactly. */
  lemma RewriteExactly(spec: string, origin: string, start: nat, end: nat, n: nat)
    requires IsSafeOrigin(origin) && IsKey(Split(spec), start) && IsBlock(Split(spec), start, end, n)
    ensures SaysServers(Split(spec), Split(Rewrite(spec, origin)), origin, start, end, n)
  {
    IsKeyLine(Split(spec), start);
    SafeOriginIsOneLine(origin);
    SplitReplaced(spec, SERVERS_KEY, Servers(origin));
    RebuiltSays(Split(spec), origin, start, end, n);
  }

  /** Every document with the key has such a block. */
  lemma BlockExists(lines: Lines, start: nat)
    requires IsKey(lines, start)
    ensures exists end, n :: IsBlock(lines, start, end, n)
  {
    var end := BlockEnd(lines, start + 1);
    assert IsBlock(lines, start, end, Blanks(lines, start, end));
  }

  /** A document without the key, or an unsafe origin, is left as it is, byte for byte. */
  lemma RewriteLeavesOthers(spec: string, origin: string)
    requires !IsSafeOrigin(origin) || SERVERS_KEY !in Split(spec)
    ensures Rewrite(spec, origin) == spec
  {
    if KeyLine(Split(spec), SERVERS_KEY, 0) < |Split(spec)| {
      assert Split(spec)[KeyLine(Split(spec), SERVERS_KEY, 0)] in Split(spec);
    }
  }

  lemma LastReplacementWins(spec: string, key: string, one: Lines, other: Lines)
    requires Indented(one) && OneLineEach(one)
    ensures Replaced(Replaced(spec, key, one), key, other) == Replaced(spec, key, other)
  {
    var lines := Split(spec);
    if KeyLine(lines, key, 0) < |lines| {
      SplitReplaced(spec, key, one);
      RebuiltAgain(lines, key, one, other);
    }
  }

  /** The last rewrite wins: rewriting for one origin and then another is rewriting for the other. */
  lemma LastRewriteWins(spec: string, first: string, second: string)
    requires IsSafeOrigin(second)
    ensures Rewrite(Rewrite(spec, first), second) == Rewrite(spec, second)
  {
    if IsSafeOrigin(first) {
      SafeOriginIsOneLine(first);
      LastReplacementWins(spec, SERVERS_KEY, Servers(first), Servers(second));
    }
  }

  /** Rewriting twice is rewriting once, for any document and any origin. */
  lemma RewriteIdempotent(spec: string, origin: string)
    ensures Rewrite(Rewrite(spec, origin), origin) == Rewrite(spec, origin)
  {
    if IsSafeOrigin(origin) {
      LastRewriteWins(spec, origin, origin);
    }
  }
}
