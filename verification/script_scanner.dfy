/** The two script lexers of the AI check guards (server/internal/aichecks/guards.go): `scanScript`,
    which strips comments, and `maskStrings`, which also numbers the string literals.

    `Head` reads one lexeme off the front of a script; `Strip`, `Code` and `MaskFrom` say what the
    lexers print for it. The index loops of the source are the methods at the end. */
module ScriptScanner {
  import opened Sequences

  /** One lexeme, with the number of characters it takes. */
  datatype Lexeme =
    | LineComment(length: nat, newline: bool)
    | BlockComment(length: nat)
    | Literal(length: nat)
    | Plain(length: nat)

  predicate IsQuote(c: char) {
    c == '"' || c == '\'' || c == '`'
  }

  /** A "/" followed by `marker` at i. */
  predicate StartsComment(t: string, i: nat, marker: char)
    requires i < |t|
  {
    t[i] == '/' && i + 1 < |t| && t[i + 1] == marker
  }

  /** The index of the first newline of `t` at or after i, or |t|. */
  function LineCommentEnd(t: string, i: nat): (r: nat)
    requires i <= |t|
    ensures i <= r <= |t| && (r < |t| ==> t[r] == '\n')
    ensures forall j | i <= j < r :: t[j] != '\n'
    decreases |t| - i
  {
    if i < |t| && t[i] != '\n' then LineCommentEnd(t, i + 1) else i
  }

  /** The two characters that close a block comment, at i. */
  predicate Closing(t: string, i: nat) {
    i + 1 < |t| && t[i] == '*' && t[i + 1] == '/'
  }

  /** The index of the "/" closing a block comment whose body is read from i; past the end when open. */
  function BlockCommentEnd(t: string, i: nat): (r: nat)
    ensures r > i && (r < |t| ==> Closing(t, r - 1))
    ensures forall j: nat | i <= j < r - 1 :: !Closing(t, j)
    ensures r >= |t| ==> r == if i < |t| then |t| else i + 1
    decreases |t| - i
  {
    if i + 1 < |t| && (t[i] != '*' || t[i + 1] != '/') then BlockCommentEnd(t, i + 1) else i + 1
  }

  /** The index of the character closing the literal that t opens, its body read from i; the last index
      when nothing closes it. */
  function LiteralEnd(t: string, i: nat): (r: nat)
    requires t != [] && 1 <= i
    ensures r < |t|
    decreases |t| - i
  {
    if i >= |t| then |t| - 1
    else if t[i] == '\\' then LiteralEnd(t, i + 2)
    else if t[i] == t[0] then i
    else if t[i] == '\n' && t[0] != '`' then i
    else LiteralEnd(t, i + 1)
  }

  /** The number of backslashes right before j, none before i counted. */
  function Backslashes(t: string, i: nat, j: nat): nat
    requires i <= j <= |t|
  {
    if j > i && t[j - 1] == '\\' then 1 + Backslashes(t, i, j - 1) else 0
  }

  /** The character at j closes the literal that t opens: its own quote, or a newline outside backquotes,
      that no backslash of its body escapes. */
  predicate ClosesLiteral(t: string, j: nat)
    requires 1 <= j < |t|
  {
    (t[j] == t[0] || (t[j] == '\n' && t[0] != '`')) && Backslashes(t, 1, j) % 2 == 0
  }

  /** The literal that t opens ends at r: the first character that closes it, or the last of the script when
      none does. */
  ghost predicate EndsLiteral(t: string, r: int)
    requires t != []
  {
    && 0 <= r < |t|
    && (forall j | 1 <= j < r :: !ClosesLiteral(t, j))
    && ((1 <= r && ClosesLiteral(t, r)) || (r == |t| - 1 && forall j | 1 <= j < |t| :: !ClosesLiteral(t, j)))
  }

  lemma LiteralEndsFirst(t: string)
    requires t != [] && IsQuote(t[0])
    ensures EndsLiteral(t, LiteralEnd(t, 1))
  {
    FirstCloser(t, 1);
  }

  lemma {:induction false} FirstCloser(t: string, i: nat)
    requires t != [] && IsQuote(t[0]) && 1 <= i
    requires i <= |t| ==> Backslashes(t, 1, i) % 2 == 0
    ensures var r := LiteralEnd(t, i);
            && (forall j | i <= j < r :: !ClosesLiteral(t, j))
            && ((i <= r && ClosesLiteral(t, r)) || (r == |t| - 1 && forall j | i <= j < |t| :: !ClosesLiteral(t, j)))
    decreases |t| - i
  {
    if i < |t| {
      if t[i] == '\\' {
        if i + 2 <= |t| {
          assert Backslashes(t, 1, i + 1) == 1 + Backslashes(t, 1, i);
        }
        FirstCloser(t, i + 2);
      } else if t[i] != t[0] && !(t[i] == '\n' && t[0] != '`') {
        FirstCloser(t, i + 1);
      }
    }
  }

  function Min(a: nat, b: nat): nat {
    if a <= b then a else b
  }

  function Head(t: string): (x: Lexeme)
    requires t != []
    ensures 1 <= x.length <= |t|
  {
    if StartsComment(t, 0, '/') then
      var n := LineCommentEnd(t, 0);
      if n < |t| then LineComment(n + 1, true) else LineComment(n, false)
    else if StartsComment(t, 0, '*') then BlockComment(Min(BlockCommentEnd(t, 2) + 1, |t|))
    else if IsQuote(t[0]) then Literal(LiteralEnd(t, 1) + 1)
    else Plain(1)
  }

  /** What a lexeme leaves in the comment-free text. */
  function Text(t: string): string
    requires t != []
  {
    match Head(t)
    case LineComment(_, newline) => if newline then "\n" else ""
    case BlockComment(_) => " "
    case Literal(n) => t[..n]
    case Plain(_) => t[..1]
  }

  function Rest(t: string): string
    requires t != []
  {
    t[Head(t).length..]
  }

  /** scanScript's first result: the script without comments. */
  function Strip(t: string): string
    decreases |t|
  {
    if t == [] then [] else Text(t) + Strip(Rest(t))
  }

  /** scanScript's second result: without comments nor string contents. */
  function Code(t: string): string
    decreases |t|
  {
    if t == [] then []
    else Bare(t) + Code(Rest(t))
  }

  /** What a lexeme leaves in the code: two quotes stand for a literal. */
  function Bare(t: string): string
    requires t != []
  {
    if Head(t).Literal? then [t[0], t[0]] else Text(t)
  }

  datatype Masked = Masked(code: string, literals: seq<string>)

  /** maskStrings, numbering the literals from n. */
  function MaskFrom(t: string, n: nat): Masked
    decreases |t|
  {
    if t == [] then Masked([], [])
    else if Head(t).Literal? then
      var m := MaskFrom(Rest(t), n + 1);
      Masked(Placeholder(n) + m.code, [Text(t)] + m.literals)
    else
      var m := MaskFrom(Rest(t), n);
      m.(code := Text(t) + m.code)
  }

  function Placeholder(n: nat): string {
    "\"" + Itoa(n) + "\""
  }

  // ---- Decimal numbers, as strconv writes and reads them ---------------------------------------

  function Itoa(n: nat): (s: string)
    ensures s != [] && Digits(s)
  {
    if n < 10 then [Digit(n)] else Itoa(n / 10) + [Digit(n % 10)]
  }

  function Digit(d: nat): (c: char)
    requires d < 10
    ensures IsDigit(c) && c as int - '0' as int == d
  {
    ('0' as int + d) as char
  }

  predicate IsDigit(c: char) {
    '0' <= c <= '9'
  }

  predicate Digits(s: string) {
    forall i | 0 <= i < |s| :: IsDigit(s[i])
  }

  function Atoi(s: string): nat
    requires Digits(s)
  {
    if s == [] then 0
    else
      assert IsDigit(s[|s| - 1]);
      10 * Atoi(s[..|s| - 1]) + (s[|s| - 1] as int - '0' as int)
  }

  /** The number of digits `s` starts with. */
  function DigitRun(s: string): (n: nat)
    ensures n <= |s| && Digits(s[..n])
    ensures n < |s| ==> !IsDigit(s[n])
  {
    if s == [] || !IsDigit(s[0]) then 0 else 1 + DigitRun(s[1..])
  }

  /** The length of the match of `"\d+"` at the front of `code`, 0 for none. */
  function PlaceholderLength(code: string): (n: nat)
    ensures n == 0 || 3 <= n <= |code|
    ensures n > 0 ==> Digits(code[1..n - 1])
  {
    if code == [] || code[0] != '"' then 0
    else
      var d := DigitRun(code[1..]);
      if d > 0 && d + 1 < |code| && code[d + 1] == '"' then
        assert code[1..d + 1] == code[1..][..d];
        d + 2
      else 0
  }

  /** The unmasking of callSnippet: every placeholder that numbers a literal is replaced by it. */
  function Unmask(code: string, literals: seq<string>): string
    decreases |code|
  {
    var k := PlaceholderLength(code);
    if code == [] then []
    else if k > 0 then
      var n := Atoi(code[1..k - 1]);
      (if n < |literals| then literals[n] else code[..k]) + Unmask(code[k..], literals)
    else [code[0]] + Unmask(code[1..], literals)
  }

  /** The numbers of the placeholders of `code`, in order. */
  function Placeholders(code: string): seq<nat>
    decreases |code|
  {
    var k := PlaceholderLength(code);
    if code == [] then []
    else if k > 0 then [Atoi(code[1..k - 1])] + Placeholders(code[k..])
    else Placeholders(code[1..])
  }

  /** `code` without its placeholders. */
  function Skeleton(code: string): string
    decreases |code|
  {
    var k := PlaceholderLength(code);
    if code == [] then []
    else if k > 0 then Skeleton(code[k..])
    else [code[0]] + Skeleton(code[1..])
  }

  // ---- The index loops of the source ------------------------------------------------------------

  /** What is left of the script at index i, which a comment may have moved past the end. */
  function From(runes: string, i: nat): string {
    if i <= |runes| then runes[i..] else []
  }

  lemma RestFrom(runes: string, at: nat, next: nat)
    requires at < |runes| && at < next
    requires Min(next - at, |runes| - at) == Head(runes[at..]).length
    ensures From(runes, next) == Rest(runes[at..])
  {
  }

  method FindLineCommentEnd(runes: string, start: nat) returns (i: nat)
    requires start < |runes|
    ensures i == start + LineCommentEnd(runes[start..], 0)
    ensures start <= i <= |runes| && (i < |runes| ==> runes[i] == '\n')
    ensures forall j | start <= j < i :: runes[j] != '\n'
  {
    i := start;
    while i < |runes| && runes[i] != '\n'
      invariant start <= i <= |runes|
      invariant forall j | start <= j < i :: runes[j] != '\n'
      invariant LineCommentEnd(runes[start..], 0) == LineCommentEnd(runes[start..], i - start)
    {
      i := i + 1;
    }
  }

  method FindBlockCommentEnd(runes: string, start: nat) returns (i: nat)
    requires start < |runes|
    ensures i == start + BlockCommentEnd(runes[start..], 2)
    ensures i < |runes| ==> Closing(runes, i - 1)
    ensures forall j: nat | start + 2 <= j < i - 1 :: !Closing(runes, j)
  {
    i := start + 2;
    while i + 1 < |runes| && (runes[i] != '*' || runes[i + 1] != '/')
      invariant start + 2 <= i
      invariant forall j: nat | start + 2 <= j < i :: !Closing(runes, j)
      invariant BlockCommentEnd(runes[start..], 2) == BlockCommentEnd(runes[start..], i - start)
      decreases |runes| - i
    {
      i := i + 1;
    }
    i := i + 1;
  }

  method FindStringEnd(runes: string, start: nat) returns (end: nat)
    requires start < |runes|
    ensures end == start + LiteralEnd(runes[start..], 1)
    ensures IsQuote(runes[start]) ==> EndsLiteral(runes[start..], end - start)
  {
    if IsQuote(runes[start]) {
      LiteralEndsFirst(runes[start..]);
    }
    var quote := runes[start];
    var i := start + 1;
    while i < |runes|
      invariant start + 1 <= i
      invariant LiteralEnd(runes[start..], 1) == LiteralEnd(runes[start..], i - start)
      decreases |runes| - i
    {
      if runes[i] == '\\' {
        i := i + 1;
      } else if runes[i] == quote {
        return i;
      } else if runes[i] == '\n' {
        if quote != '`' {
          return i;
        }
      }
      i := i + 1;
    }
    return |runes| - 1;
  }

  /** What the branches of the scanning loops read at index i, and where they leave off. */
  ghost predicate Reads(runes: string, i: nat, next: nat, literal: bool, text: string)
    requires i < |runes|
  {
    var t := runes[i..];
    Head(t).Literal? == literal && Text(t) == text && Rest(t) == From(runes, next)
  }

  lemma ReadsLineComment(runes: string, i: nat, end: nat)
    requires i < |runes| && StartsComment(runes, i, '/') && end == i + LineCommentEnd(runes[i..], 0)
    ensures Reads(runes, i, end + 1, false, if end < |runes| then "\n" else "")
  {
    RestFrom(runes, i, end + 1);
  }

  lemma ReadsBlockComment(runes: string, i: nat, end: nat)
    requires i < |runes| && !StartsComment(runes, i, '/') && StartsComment(runes, i, '*')
    requires end == i + BlockCommentEnd(runes[i..], 2)
    ensures Reads(runes, i, end + 1, false, " ")
  {
    RestFrom(runes, i, end + 1);
  }

  lemma ReadsLiteral(runes: string, i: nat, end: nat)
    requires i < |runes| && !StartsComment(runes, i, '/') && !StartsComment(runes, i, '*') && IsQuote(runes[i])
    requires end == i + LiteralEnd(runes[i..], 1)
    ensures Reads(runes, i, end + 1, true, runes[i..end + 1])
  {
    RestFrom(runes, i, end + 1);
    assert runes[i..end + 1] == runes[i..][..end + 1 - i];
  }

  lemma ReadsPlain(runes: string, i: nat)
    requires i < |runes| && !StartsComment(runes, i, '/') && !StartsComment(runes, i, '*') && !IsQuote(runes[i])
    ensures Reads(runes, i, i + 1, false, [runes[i]])
  {
    RestFrom(runes, i, i + 1);
    assert [runes[i]] == runes[i..][..1];
  }

  /** The two texts of a script of which `shown` and `bare` are done and t is left. */
  function Scanned(shown: string, bare: string, t: string): (string, string) {
    (shown + Strip(t), bare + Code(t))
  }

  method ScanScript(runes: string) returns (noComments: string, code: string)
    ensures noComments == Strip(runes)
    ensures code == Code(runes)
  {
    noComments, code := [], [];
    var i := 0;
    while i < |runes|
      invariant 0 <= i
      invariant Scanned(noComments, code, From(runes, i)) == Scanned([], [], runes)
      decreases |runes| - i
    {
      ghost var at, shown, bare := i, noComments, code;
      ghost var literal, text := false, " ";
      if StartsComment(runes, i, '/') {
        i := FindLineCommentEnd(runes, i);
        ReadsLineComment(runes, at, i);
        text := if i < |runes| then "\n" else "";
        if i < |runes| {
          noComments, code := noComments + "\n", code + "\n";
        }
      } else if StartsComment(runes, i, '*') {
        i := FindBlockCommentEnd(runes, i);
        ReadsBlockComment(runes, at, i);
        noComments, code := noComments + " ", code + " ";
      } else if IsQuote(runes[i]) {
        var end := FindStringEnd(runes, i);
        ReadsLiteral(runes, at, end);
        literal, text := true, runes[i..end + 1];
        noComments, code := noComments + runes[i..end + 1], code + [runes[i], runes[i]];
        i := end;
      } else {
        ReadsPlain(runes, at);
        text := [runes[i]];
        noComments, code := noComments + [runes[i]], code + [runes[i]];
      }
      i := i + 1;
      ScanStep(runes, at, i, literal, text, shown, bare, noComments, code);
    }
    Empty(noComments);
    Empty(code);
    Empty(Strip(runes));
    Empty(Code(runes));
  }

  lemma ScanStep(
    runes: string, i: nat, next: nat, literal: bool, text: string, shown: string, bare: string, shown': string,
    bare': string)
    requires i < |runes| && Reads(runes, i, next, literal, text)
    requires shown' == shown + text && bare' == bare + if literal then [runes[i], runes[i]] else text
    ensures Scanned(shown', bare', From(runes, next)) == Scanned(shown, bare, From(runes, i))
  {
    var t := runes[i..];
    Associative(shown, Text(t), Strip(Rest(t)));
    Associative(bare, Bare(t), Code(Rest(t)));
  }

  /** The mask of a script of which `shown` and `found` are done and t is left. */
  function Resumed(shown: string, found: seq<string>, t: string): Masked {
    var m := MaskFrom(t, |found|);
    Masked(shown + m.code, found + m.literals)
  }

  method MaskStrings(runes: string) returns (code: string, literals: seq<string>)
    ensures Masked(code, literals) == MaskFrom(runes, 0)
  {
    code, literals := [], [];
    var i := 0;
    while i < |runes|
      invariant 0 <= i
      invariant Resumed(code, literals, From(runes, i)) == MaskFrom(runes, 0)
      decreases |runes| - i
    {
      ghost var at, shown, found := i, code, literals;
      ghost var literal, text := false, " ";
      if StartsComment(runes, i, '/') {
        i := FindLineCommentEnd(runes, i);
        ReadsLineComment(runes, at, i);
        text := if i < |runes| then "\n" else "";
        if i < |runes| {
          code := code + "\n";
        }
      } else if StartsComment(runes, i, '*') {
        i := FindBlockCommentEnd(runes, i);
        ReadsBlockComment(runes, at, i);
        code := code + " ";
      } else if IsQuote(runes[i]) {
        var end := FindStringEnd(runes, i);
        ReadsLiteral(runes, at, end);
        literal, text := true, runes[i..end + 1];
        code := code + Placeholder(|literals|);
        literals := literals + [runes[i..end + 1]];
        i := end;
      } else {
        ReadsPlain(runes, at);
        text := [runes[i]];
        code := code + [runes[i]];
      }
      i := i + 1;
      MaskStep(runes, at, i, literal, text, shown, found, code, literals);
    }
  }

  lemma MaskStep(
    runes: string, i: nat, next: nat, literal: bool, text: string, shown: string, found: seq<string>,
    shown': string, found': seq<string>)
    requires i < |runes| && Reads(runes, i, next, literal, text)
    requires shown' == shown + if literal then Placeholder(|found|) else text
    requires found' == if literal then found + [text] else found
    ensures Resumed(shown', found', From(runes, next)) == Resumed(shown, found, From(runes, i))
  {
    var t := runes[i..];
    var m := MaskFrom(Rest(t), |found'|);
    if literal {
      Associative(shown, Placeholder(|found|), m.code);
      Associative(found, [text], m.literals);
    } else {
      Associative(shown, text, m.code);
    }
  }
}
