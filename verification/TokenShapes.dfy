/** What the tokens of a text look like, told from the text alone, and that they cut it in one way only. */
module TokenShapes {
  datatype Kind = Blank | Ident | Number | Text | Punct | Multi | Comment

  datatype Token = Token(kind: Kind, start: nat, end: nat)

  const BLANKS := {' ', '\t', '\n', '\r'}
  const QUOTES := {'\'', '"'}
  const MARKS := ["<->", "->", "<-", "<~", "~>", "<>", "<=", ">=", "||"]

  /** The Latin letters and the underscore. */
  predicate Letter(c: char) {
    c in {'_'} || (65 <= c as int <= 90) || (97 <= c as int <= 122)
  }

  predicate Digit(c: char) {
    48 <= c as int <= 57
  }

  predicate InName(c: char) {
    Letter(c) || Digit(c)
  }

  predicate InNumber(c: char) {
    Digit(c) || c == '.'
  }

  /** The text goes on with this at i. */
  predicate Spells(src: string, i: nat, mark: string) {
    i + |mark| <= |src| && forall j | 0 <= j < |mark| :: src[i + j] == mark[j]
  }

  predicate OpensComment(src: string, i: nat) {
    Spells(src, i, "//") || Spells(src, i, "--") || Spells(src, i, "/*")
  }

  ghost predicate BeginsMark(src: string, i: nat) {
    exists m: nat | m < |MARKS| :: Spells(src, i, MARKS[m])
  }

  /** A longest run of these characters, from its start on. */
  predicate Runs(src: string, t: Token, belongs: char -> bool) {
    && t.start < t.end <= |src| && (forall j | t.start <= j < t.end :: belongs(src[j]))
    && (t.end < |src| ==> !belongs(src[t.end]))
  }

  /** A comment to the end of its line. */
  predicate IsLineComment(src: string, t: Token) {
    && (Spells(src, t.start, "//") || Spells(src, t.start, "--"))
    && t.start < t.end <= |src| && (forall j | t.start <= j < t.end :: src[j] != '\n')
    && (t.end < |src| ==> src[t.end] == '\n')
  }

  /** A comment to its first closing mark, or to where one would end past the text. */
  predicate IsBlockComment(src: string, t: Token) {
    && Spells(src, t.start, "/*") && t.start + 4 <= t.end
    && (forall j: nat | t.start + 2 <= j < t.end - 2 :: !Spells(src, j, "*/"))
    && (Spells(src, t.end - 2, "*/") || t.end == |src| + 2)
  }

  /** From a quote to the next one like it, or to where one would stand past the text. */
  predicate IsQuoted(src: string, t: Token)
    requires t.start < |src|
  {
    && src[t.start] in QUOTES && t.start + 2 <= t.end <= |src| + 1
    && (forall j | t.start < j < t.end - 1 :: src[j] != src[t.start])
    && (t.end <= |src| ==> src[t.end - 1] == src[t.start])
  }

  /** The longest mark there is at t's start. */
  ghost predicate IsMark(src: string, t: Token) {
    && (exists m: nat | m < |MARKS| :: Spells(src, t.start, MARKS[m]) && t.end == t.start + |MARKS[m]|)
    && forall m: nat | m < |MARKS| && Spells(src, t.start, MARKS[m]) :: t.start + |MARKS[m]| <= t.end
  }

  /** One character, of no other class. */
  ghost predicate IsSingle(src: string, t: Token)
    requires t.start < |src|
  {
    && t.end == t.start + 1 && !OpensComment(src, t.start) && !BeginsMark(src, t.start)
    && src[t.start] !in BLANKS + QUOTES && !InName(src[t.start])
  }

  ghost predicate Shaped(src: string, t: Token)
    requires t.start < |src|
  {
    match t.kind
    case Blank => src[t.start] in BLANKS && t.end == t.start + 1
    case Comment => IsLineComment(src, t) || IsBlockComment(src, t)
    case Text => IsQuoted(src, t)
    case Ident => Letter(src[t.start]) && Runs(src, t, InName)
    case Number => Digit(src[t.start]) && Runs(src, t, InNumber)
    case Multi => IsMark(src, t)
    case Punct => IsSingle(src, t)
  }

  // --------------------------------------------------------------- one at a place --

  const OPENERS := {'/', '-', '<', '~', '>', '|'}

  lemma OneClass(c: char)
    ensures c in BLANKS ==> c !in QUOTES && !InName(c) && c !in OPENERS
    ensures c in QUOTES ==> !InName(c) && c !in OPENERS
    ensures Letter(c) ==> !Digit(c)
    ensures InName(c) ==> c !in OPENERS
  {
  }

  lemma SpellsAt(src: string, i: nat, mark: string, j: nat)
    requires Spells(src, i, mark) && j < |mark|
    ensures i + j < |src| && src[i + j] == mark[j]
  {
  }

  lemma CommentBegins(src: string, i: nat)
    requires OpensComment(src, i)
    ensures i + 1 < |src| && src[i] in OPENERS
    ensures (src[i] == '/' && src[i + 1] in {'/', '*'}) || (src[i] == '-' && src[i + 1] == '-')
  {
    var mark := if Spells(src, i, "//") then "//" else if Spells(src, i, "--") then "--" else "/*";
    SpellsAt(src, i, mark, 0);
    SpellsAt(src, i, mark, 1);
  }

  /** No mark begins a comment. */
  lemma MarkBegins(src: string, i: nat, m: nat)
    requires m < |MARKS| && Spells(src, i, MARKS[m])
    ensures i < |src| && src[i] in OPENERS && !OpensComment(src, i)
  {
    SpellsAt(src, i, MARKS[m], 0);
    SpellsAt(src, i, MARKS[m], 1);
    if OpensComment(src, i) {
      CommentBegins(src, i);
    }
  }

  lemma ShapedStart(src: string, t: Token)
    requires t.start < |src| && Shaped(src, t)
    ensures t.kind == Comment ==> OpensComment(src, t.start) && src[t.start] in OPENERS
    ensures t.kind == Multi ==> BeginsMark(src, t.start) && src[t.start] in OPENERS && !OpensComment(src, t.start)
  {
    if t.kind == Comment {
      CommentBegins(src, t.start);
    } else if t.kind == Multi {
      var m: nat :| m < |MARKS| && Spells(src, t.start, MARKS[m]) && t.end == t.start + |MARKS[m]|;
      MarkBegins(src, t.start, m);
    }
  }

  /** The shapes exclude each other. */
  lemma OneKind(src: string, t: Token, u: Token)
    requires t.start == u.start < |src| && Shaped(src, t) && Shaped(src, u)
    ensures t.kind == u.kind
  {
    ShapedStart(src, t);
    ShapedStart(src, u);
    OneClass(src[t.start]);
    hide Spells, Runs, IsLineComment, IsBlockComment, IsMark, OpensComment, BeginsMark, Letter, Digit;
  }

  /** A token of a shape ends nowhere else. */
  lemma OneEnd(src: string, t: Token, u: Token)
    requires t.start == u.start < |src| && Shaped(src, t) && Shaped(src, u) && t.kind == u.kind
    ensures t.end <= u.end
  {
    if t.kind == Comment {
      OneComment(src, t, u);
    } else if t.kind == Multi {
      hide Spells;
    }
  }

  lemma OneComment(src: string, t: Token, u: Token)
    requires t.start == u.start < |src| && t.kind == u.kind == Comment && Shaped(src, t) && Shaped(src, u)
    ensures t.end <= u.end
  {
    SecondDecides(src, t);
    SecondDecides(src, u);
    if IsBlockComment(src, t) {
      hide IsLineComment;
      CloseFits(src, u);
    } else {
      hide IsBlockComment, Spells;
    }
  }

  /** The second character says which kind of comment it is. */
  lemma SecondDecides(src: string, t: Token)
    requires t.start < |src| && (IsLineComment(src, t) || IsBlockComment(src, t))
    ensures t.start + 1 < |src| && (IsBlockComment(src, t) <==> src[t.start + 1] == '*')
  {
    if IsBlockComment(src, t) {
      SpellsAt(src, t.start, "/*", 1);
    } else {
      SpellsAt(src, t.start, if Spells(src, t.start, "//") then "//" else "--", 1);
    }
  }

  lemma CloseFits(src: string, t: Token)
    requires IsBlockComment(src, t)
    ensures t.end <= |src| + 2 && (t.end == |src| + 2 || Spells(src, t.end - 2, "*/"))
  {
  }

  /** Tokens of a shape, from i to the end of the text, each from where the one before it ends. */
  ghost predicate Cuts(src: string, ts: seq<Token>, i: nat)
    decreases |ts|
  {
    if i >= |src| then ts == []
    else ts != [] && ts[0].start == i && ts[0].end > i && Shaped(src, ts[0]) && Cuts(src, ts[1..], ts[0].end)
  }

  /** A text can be cut in one way only. */
  lemma {:induction false} OneCut(src: string, ts: seq<Token>, us: seq<Token>, i: nat)
    requires Cuts(src, ts, i) && Cuts(src, us, i)
    ensures ts == us
    decreases |ts|
  {
    if i < |src| {
      OneKind(src, ts[0], us[0]);
      OneEnd(src, ts[0], us[0]);
      OneEnd(src, us[0], ts[0]);
      OneCut(src, ts[1..], us[1..], ts[0].end);
      assert ts == [ts[0]] + ts[1..] && us == [us[0]] + us[1..];
    }
  }
}
