/** What the guards rely on: stripping is stable under rescanning, and the masked form of a script
    carries the same text as its comment-free form. */
module ScriptScannerTheorems {
  import opened ScriptScanner
  import opened Sequences

  // ---- What a script reads as ---------------------------------------------------------------------

  predicate Starts(s: string, marker: string) {
    |marker| == 2 && |s| >= 2 && s[0] == marker[0] && s[1] == marker[1]
  }

  /** From "//" to the end of the line, its newline included, or of the script. */
  ghost predicate IsLineComment(s: string, last: bool) {
    && Starts(s, "//") && (forall j | 0 <= j < |s| - 1 :: s[j] != '\n')
    && (s[|s| - 1] == '\n' || last)
  }

  /** "*" and "/" at j. */
  predicate ClosesAt(s: string, j: nat) {
    j + 1 < |s| && s[j] == '*' && s[j + 1] == '/'
  }

  /** From the opening mark to the first closing mark after it, or to the end of the script. */
  ghost predicate IsBlockComment(s: string, last: bool) {
    && Starts(s, "/*") && (forall j: nat | 2 <= j < |s| - 2 :: !ClosesAt(s, j))
    && ((|s| >= 4 && ClosesAt(s, |s| - 2)) || (last && !(|s| >= 4 && ClosesAt(s, |s| - 2))))
  }

  predicate Quote(c: char) {
    c == '"' || c == '\'' || c == '`'
  }

  /** From a quote to the first character that closes it, or to the end of the script. */
  ghost predicate IsLiteral(s: string, last: bool) {
    && s != [] && Quote(s[0]) && (forall j | 1 <= j < |s| - 1 :: !ClosesLiteral(s, j))
    && ((|s| >= 2 && ClosesLiteral(s, |s| - 1)) || last)
  }

  /** Any other character: no quote, and no "/" before another one or a "*". */
  ghost predicate IsPlain(s: string, rest: string) {
    && |s| == 1 && !Quote(s[0])
    && !(s[0] == '/' && rest != [] && (rest[0] == '/' || rest[0] == '*'))
  }

  ghost predicate IsLexeme(s: string, rest: string) {
    IsLineComment(s, rest == []) || IsBlockComment(s, rest == []) || IsLiteral(s, rest == []) || IsPlain(s, rest)
  }

  /** The script falls into these lexemes. */
  ghost predicate FallsInto(t: string, lexemes: seq<string>)
    decreases |lexemes|
  {
    if lexemes == [] then t == []
    else
      var s := lexemes[0];
      s != [] && s <= t && IsLexeme(s, t[|s|..]) && FallsInto(t[|s|..], lexemes[1..])
  }

  /** What the comment-free text shows of a lexeme: the newline of a line comment, a space for a block
      comment, the rest as it is. */
  function Shown(s: string): string {
    if Starts(s, "//") then (if s[|s| - 1] == '\n' then "\n" else "")
    else if Starts(s, "/*") then " "
    else s
  }

  /** What the code shows of it: of a literal only its opening quote, twice. */
  function Unquoted(s: string): string {
    if s != [] && Quote(s[0]) then [s[0], s[0]] else Shown(s)
  }

  function AllShown(lexemes: seq<string>): string {
    if lexemes == [] then [] else Shown(lexemes[0]) + AllShown(lexemes[1..])
  }

  function AllUnquoted(lexemes: seq<string>): string {
    if lexemes == [] then [] else Unquoted(lexemes[0]) + AllUnquoted(lexemes[1..])
  }

  function AllLiterals(lexemes: seq<string>): seq<string> {
    if lexemes == [] then []
    else
      var s := lexemes[0];
      (if s != [] && Quote(s[0]) then [s] else []) + AllLiterals(lexemes[1..])
  }

  lemma {:induction false} SameBackslashes(s: string, t: string, i: nat, j: nat)
    requires s <= t && i <= j <= |s|
    ensures Backslashes(s, i, j) == Backslashes(t, i, j)
    decreases j
  {
    if j > i && s[j - 1] == '\\' {
      SameBackslashes(s, t, i, j - 1);
    }
  }

  lemma SameCloses(s: string, t: string)
    requires s <= t
    ensures forall j | 1 <= j < |s| :: ClosesLiteral(s, j) == ClosesLiteral(t, j)
  {
    forall j | 1 <= j < |s| ensures ClosesLiteral(s, j) == ClosesLiteral(t, j) {
      SameBackslashes(s, t, 1, j);
    }
  }

  /** The lexers read the head of a script as a lexeme. */
  lemma HeadIsLexeme(t: string)
    requires t != []
    ensures IsLexeme(t[..Head(t).length], Rest(t))
  {
    var s := t[..Head(t).length];
    match Head(t)
    case LineComment(_, _) => assert IsLineComment(s, Rest(t) == []);
    case BlockComment(_) => BlockHead(t, s);
    case Literal(_) => LiteralHead(t, s);
    case Plain(_) =>
      assert Rest(t) != [] ==> Rest(t)[0] == t[1];
      assert IsPlain(s, Rest(t));
  }

  lemma BlockHead(t: string, s: string)
    requires t != [] && Head(t).BlockComment? && s == t[..Head(t).length]
    ensures IsBlockComment(s, Rest(t) == [])
  {
    assert forall j: nat :: ClosesAt(s, j) ==> Closing(t, j);
    assert forall j: nat | j + 1 < |s| :: ClosesAt(s, j) <==> Closing(t, j);
  }

  lemma LiteralHead(t: string, s: string)
    requires t != [] && Head(t).Literal? && s == t[..Head(t).length]
    ensures IsLiteral(s, Rest(t) == [])
  {
    LiteralEndsFirst(t);
    SameCloses(s, t);
  }

  /** And as no other. */
  lemma LexemeIsHead(t: string, s: string)
    requires s != [] && s <= t && IsLexeme(s, t[|s|..])
    ensures |s| == Head(t).length && Text(t) == Shown(s) && Bare(t) == Unquoted(s)
    ensures Head(t).Literal? <==> Quote(s[0])
  {
    var rest := t[|s|..];
    assert t == s + rest && s == t[..|s|];
    if IsLineComment(s, rest == []) {
      assert forall j | 0 <= j < |s| - 1 :: t[j] != '\n';
    } else if IsBlockComment(s, rest == []) {
      BlockIsHead(t, s, rest);
    } else if IsLiteral(s, rest == []) {
      LiteralIsHead(t, s, rest);
    } else {
      assert rest != [] ==> rest[0] == t[1];
    }
  }

  lemma BlockIsHead(t: string, s: string, rest: string)
    requires t == s + rest && IsBlockComment(s, rest == [])
    ensures Head(t) == BlockComment(|s|)
  {
    assert forall j: nat | j + 1 < |s| :: ClosesAt(s, j) <==> Closing(t, j);
    var r := BlockCommentEnd(t, 2);
    if |s| >= 4 && ClosesAt(s, |s| - 2) {
      assert Closing(t, |s| - 2);
    } else {
      assert s == t;
    }
  }

  lemma LiteralIsHead(t: string, s: string, rest: string)
    requires t == s + rest && IsLiteral(s, rest == [])
    ensures Head(t) == Literal(|s|)
  {
    LiteralEndsFirst(t);
    SameCloses(s, t);
  }

  /** What the lexers say of a script, exactly: it falls into lexemes in just one way, the comment-free text
      and the code are what is shown of them, and the recorded literals are the literals among them. */
  lemma {:induction false} ScanExactly(t: string, n: nat, lexemes: seq<string>)
    requires FallsInto(t, lexemes)
    ensures lexemes == Lexemes(t)
    ensures Strip(t) == AllShown(lexemes) && Code(t) == AllUnquoted(lexemes)
    ensures MaskFrom(t, n).literals == AllLiterals(lexemes)
    decreases |lexemes|
  {
    if lexemes != [] {
      var s := lexemes[0];
      LexemeIsHead(t, s);
      assert s == t[..|s|];
      ScanExactly(t[|s|..], if Quote(s[0]) then n + 1 else n, lexemes[1..]);
    }
  }

  /** The lexemes the lexers read. */
  function Lexemes(t: string): seq<string>
    decreases |t|
  {
    if t == [] then [] else [t[..Head(t).length]] + Lexemes(Rest(t))
  }

  lemma {:induction false} FallsIntoLexemes(t: string)
    ensures FallsInto(t, Lexemes(t))
    decreases |t|
  {
    if t != [] {
      HeadIsLexeme(t);
      FallsIntoLexemes(Rest(t));
      assert Lexemes(t)[1..] == Lexemes(Rest(t));
    }
  }

  // ---- Rescanning ------------------------------------------------------------------------------

  /** The lexer finds no comment in t. */
  predicate CommentFree(t: string)
    decreases |t|
  {
    t == [] || (!Head(t).LineComment? && !Head(t).BlockComment? && CommentFree(Rest(t)))
  }

  /** A literal of t is closed by its own last character, not by the end of the script. */
  predicate ClosedAt(t: string, i: nat, end: nat)
    requires t != [] && 1 <= i
    decreases |t| - i
  {
    if i >= |t| then false
    else if t[i] == '\\' then ClosedAt(t, i + 2, end)
    else if t[i] == t[0] || (t[i] == '\n' && t[0] != '`') then i == end
    else ClosedAt(t, i + 1, end)
  }

  /** Where a literal ends depends on its own characters only: any text that starts with them, and ends
      with them if nothing closes the literal, has the literal end at the same place. */
  lemma {:induction false} LiteralEndIsLocal(t: string, u: string, i: nat)
    requires t != [] && u != [] && 1 <= i
    requires var end := LiteralEnd(t, i); end < |u| && t[..end + 1] == u[..end + 1]
    requires ClosedAt(t, i, LiteralEnd(t, i)) || |u| == LiteralEnd(t, i) + 1
    ensures LiteralEnd(u, i) == LiteralEnd(t, i)
    decreases |t| - i
  {
    var end := LiteralEnd(t, i);
    assert forall j | 0 <= j <= end :: t[j] == t[..end + 1][j] == u[j];
    if i < |t| {
      EndsAhead(t, i);
      if t[i] == '\\' {
        LiteralEndIsLocal(t, u, i + 2);
      } else if t[i] != t[0] && !(t[i] == '\n' && t[0] != '`') {
        LiteralEndIsLocal(t, u, i + 1);
      }
    }
  }

  lemma {:induction false} EndsAhead(t: string, i: nat)
    requires t != [] && 1 <= i
    ensures LiteralEnd(t, i) == |t| - 1 || LiteralEnd(t, i) >= i
    ensures ClosedAt(t, i, LiteralEnd(t, i)) || LiteralEnd(t, i) == |t| - 1
    decreases |t| - i
  {
    if i < |t| {
      if t[i] == '\\' {
        EndsAhead(t, i + 2);
      } else if t[i] != t[0] && !(t[i] == '\n' && t[0] != '`') {
        EndsAhead(t, i + 1);
      }
    }
  }

  lemma LiteralRescanned(t: string, tail: string)
    requires t != [] && Head(t).Literal?
    requires Rest(t) == [] ==> tail == []
    ensures var u := Text(t) + tail; Head(u) == Head(t) && Text(u) == Text(t) && Rest(u) == tail
  {
    var n := Head(t).length;
    var u := Text(t) + tail;
    assert u[..n] == t[..n] && u[0] == t[..n][0] == t[0];
    EndsAhead(t, 1);
    LiteralEndIsLocal(t, u, 1);
  }

  /** Removing what comes before never makes a plain "/" open a comment: what follows it in the output
      does not start with "/" or "*". */
  lemma StripStartsPlain(t: string)
    requires t != [] && t[0] != '/' && t[0] != '*'
    ensures Strip(t) != [] && Strip(t)[0] == t[0]
  {
    assert Text(t) != [] && Text(t)[0] == t[0];
  }

  /** What a lexeme leaves in the comment-free text is read back as itself, before the rest. */
  lemma StripRescanned(t: string)
    requires t != [] && Text(t) != []
    ensures var u := Text(t) + Strip(Rest(t));
            && Head(u) == (if Head(t).Literal? then Head(t) else Plain(1))
            && Text(u) == Text(t) && Rest(u) == Strip(Rest(t)) && Bare(u) == Bare(t)
  {
    var tail := Strip(Rest(t));
    var u := Text(t) + tail;
    if Head(t).Literal? {
      LiteralRescanned(t, tail);
      assert u[0] == t[..Head(t).length][0] == t[0];
    } else {
      assert |Text(t)| == 1 && u[0] == Text(t)[0] && u[1..] == tail && u[..1] == Text(t);
      if Head(t).Plain? && t[0] == '/' && Rest(t) != [] {
        assert Rest(t)[0] == t[1];
        StripStartsPlain(Rest(t));
        assert u[1] == tail[0];
      }
    }
  }

  /** Stripping leaves no comment, old or new, and stripping again changes neither text. */
  lemma {:induction false} StripStable(t: string)
    ensures CommentFree(Strip(t))
    ensures Strip(Strip(t)) == Strip(t)
    ensures Code(Strip(t)) == Code(t)
    decreases |t|
  {
    if t != [] {
      StripStable(Rest(t));
      if Text(t) == [] {
        assert Rest(t) == [];
      } else {
        StripRescanned(t);
      }
    }
  }

  /** A script is its own comment-free text exactly when the lexer finds no comment in it. */
  lemma {:induction false} FixedIffCommentFree(t: string)
    ensures Strip(t) == t <==> CommentFree(t)
    decreases |t|
  {
    if CommentFree(t) {
      if t != [] {
        FixedIffCommentFree(Rest(t));
        assert Text(t) + Rest(t) == t;
      }
    } else if Strip(t) == t {
      StripStable(t);
    }
  }

  lemma CodeRescanned(t: string)
    requires t != [] && Text(t) != []
    ensures var u := Bare(t) + Code(Rest(t));
            Rest(u) == Code(Rest(t)) && Bare(u) == Bare(t)
  {
    var tail := Code(Rest(t));
    var u := Bare(t) + tail;
    if Head(t).Literal? {
      assert u[0] == u[1] == t[0] && LiteralEnd(u, 1) == 1;
      assert u[2..] == tail;
    } else {
      assert u[0] == Text(t)[0] && u[1..] == tail && u[..1] == Text(t);
      if Head(t).Plain? && t[0] == '/' && Rest(t) != [] {
        assert Rest(t)[0] == t[1];
        var next := Rest(t);
        assert Bare(next) != [] && Bare(next)[0] == next[0];
        assert u[1] == tail[0];
      }
    }
  }

  /** codeOnly is idempotent. */
  lemma {:induction false} CodeIdempotent(t: string)
    ensures Code(Code(t)) == Code(t)
    decreases |t|
  {
    if t != [] {
      CodeIdempotent(Rest(t));
      if Text(t) == [] {
        assert Rest(t) == [];
      } else {
        CodeRescanned(t);
      }
    }
  }

  // ---- The two lexers agree ---------------------------------------------------------------------

  lemma {:induction false} AtoiItoa(n: nat)
    ensures Atoi(Itoa(n)) == n
  {
    if n >= 10 {
      AtoiItoa(n / 10);
      var s := Itoa(n);
      assert s[..|s| - 1] == Itoa(n / 10);
    } else {
      assert Itoa(n)[..0] == [];
    }
  }

  lemma {:induction false} DigitRunStops(s: string, tail: string)
    requires Digits(s) && (tail == [] || !IsDigit(tail[0]))
    ensures DigitRun(s + tail) == |s|
    decreases |s|
  {
    if s == [] {
      assert s + tail == tail;
    } else {
      assert (s + tail)[0] == s[0] && (s + tail)[1..] == s[1..] + tail;
      DigitRunStops(s[1..], tail);
    }
  }

  /** A placeholder is read back as its number, whatever follows. */
  lemma PlaceholderReadBack(n: nat, tail: string)
    ensures var code := Placeholder(n) + tail;
            var k := PlaceholderLength(code);
            && k == |Placeholder(n)| >= 3 && Atoi(code[1..k - 1]) == n && code[k..] == tail
            && code[0] == '"' == code[k - 1] && forall j | 1 <= j < k - 1 :: '0' <= code[j] <= '9'
  {
    var code := Placeholder(n) + tail;
    var digits := Itoa(n);
    assert code[1..] == digits + ("\"" + tail);
    DigitRunStops(digits, "\"" + tail);
    assert code[|digits| + 1] == '"';
    assert code[1..|digits| + 1] == digits;
    AtoiItoa(n);
  }

  /** Plain characters pass through. */
  lemma PlainReadBack(text: string, tail: string, literals: seq<string>)
    requires |text| <= 1 && (text != [] ==> text[0] != '"')
    ensures Unmask(text + tail, literals) == text + Unmask(tail, literals)
    ensures Placeholders(text + tail) == Placeholders(tail)
    ensures Skeleton(text + tail) == text + Skeleton(tail)
  {
    if text == [] {
      assert text + tail == tail;
    } else {
      var code := text + tail;
      assert code[0] == text[0] && code[1..] == tail && [code[0]] == text;
    }
  }

  lemma UnmaskPlaceholder(n: nat, tail: string, literals: seq<string>)
    requires n < |literals|
    ensures Unmask(Placeholder(n) + tail, literals) == literals[n] + Unmask(tail, literals)
  {
    PlaceholderReadBack(n, tail);
  }

  /** A placeholder that numbers no literal is left as it is. */
  lemma UnmaskLeavesOthers(n: nat, tail: string, literals: seq<string>)
    requires n >= |literals|
    ensures Unmask(Placeholder(n) + tail, literals) == Placeholder(n) + Unmask(tail, literals)
  {
    PlaceholderReadBack(n, tail);
    var k := PlaceholderLength(Placeholder(n) + tail);
    assert (Placeholder(n) + tail)[..k] == Placeholder(n);
  }

  lemma {:induction false} UnmaskFrom(t: string, before: seq<string>, literals: seq<string>)
    requires literals == before + MaskFrom(t, |before|).literals
    ensures Unmask(MaskFrom(t, |before|).code, literals) == Strip(t)
    decreases |t|
  {
    if t != [] {
      var n := |before|;
      if Head(t).Literal? {
        var m := MaskFrom(Rest(t), n + 1);
        Associative(before, [Text(t)], m.literals);
        UnmaskFrom(Rest(t), before + [Text(t)], literals);
        UnmaskPlaceholder(n, m.code, literals);
        assert literals[n] == Text(t);
      } else {
        NonLiteralText(t);
        PlainReadBack(Text(t), MaskFrom(Rest(t), n).code, literals);
        UnmaskFrom(Rest(t), before, literals);
      }
    }
  }

  lemma NonLiteralText(t: string)
    requires t != [] && !Head(t).Literal?
    ensures |Text(t)| <= 1 && (Text(t) != [] ==> !IsQuote(Text(t)[0]))
  {
  }

  /** The two lexers agree on every script: putting the recorded literals back into the masked code
      gives the comment-free text. */
  lemma LexersAgree(t: string)
    ensures var m := MaskFrom(t, 0); Unmask(m.code, m.literals) == Strip(t)
  {
    assert [] + MaskFrom(t, 0).literals == MaskFrom(t, 0).literals;
    UnmaskFrom(t, [], MaskFrom(t, 0).literals);
  }

  function Range(n: nat, count: nat): seq<nat>
    decreases count
  {
    if count == 0 then [] else [n] + Range(n + 1, count - 1)
  }

  /** The placeholders of the masked code number its literals in order, each literal starts with its
      quote, and no other quote is left in the code. */
  lemma {:induction false} PlaceholdersInOrder(t: string, n: nat)
    ensures var m := MaskFrom(t, n);
            && Placeholders(m.code) == Range(n, |m.literals|)
            && (forall c | c in Skeleton(m.code) :: c != '"' && c != '\'' && c != '`')
            && (forall literal | literal in m.literals :: literal != [] && Quote(literal[0]))
    decreases |t|
  {
    if t != [] {
      if Head(t).Literal? {
        var m := MaskFrom(Rest(t), n + 1);
        PlaceholderReadBack(n, m.code);
        PlaceholdersInOrder(Rest(t), n + 1);
        assert Text(t)[0] == t[0];
      } else {
        var m := MaskFrom(Rest(t), n);
        NonLiteralText(t);
        PlainReadBack(Text(t), m.code, []);
        PlaceholdersInOrder(Rest(t), n);
        assert forall c | c in Text(t) + Skeleton(m.code) :: c in Text(t) || c in Skeleton(m.code);
        assert forall c | c in Text(t) :: c == Text(t)[0];
      }
    }
  }
}
