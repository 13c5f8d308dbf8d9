/** The character census: a consuming scanner that puts every character of a text in one of seven classes. */
module Census {
  import opened Vectors
  import opened TokenShapes

  predicate IsDigit(c: char) {
    '0' <= c <= '9'
  }

  predicate IsIdentStart(c: char) {
    'a' <= c <= 'z' || 'A' <= c <= 'Z' || c == '_'
  }

  predicate IsIdentPart(c: char) {
    IsIdentStart(c) || IsDigit(c)
  }

  /** src.slice(i, i + n) */
  function Slice(src: string, i: nat, n: nat): (r: string)
    ensures |r| <= n && (n > 0 && |r| == n ==> i + n <= |src|)
  {
    if i >= |src| then "" else if i + n <= |src| then src[i..i + n] else src[i..]
  }

  predicate IsPair(two: string) {
    two == "->" || two == "<-" || two == "<~" || two == "~>" || two == "<>" || two == "<=" || two == ">=" || two == "||"
  }

  /** The first place at or after i where the scan stops, or the end of the text. */
  function First(src: string, i: nat, stop: nat -> bool): (r: nat)
    requires i <= |src|
    ensures i <= r <= |src|
    ensures forall j: nat | i <= j < r :: !stop(j)
    ensures r < |src| ==> stop(r)
    decreases |src| - i
  {
    if i == |src| || stop(i) then i else First(src, i + 1, stop)
  }

  function AtNewline(src: string): nat -> bool {
    (j: nat) => j < |src| && src[j] == '\n'
  }

  function AtClose(src: string): nat -> bool {
    (j: nat) => Slice(src, j, 2) == "*/"
  }

  function AtChar(src: string, c: char): nat -> bool {
    (j: nat) => j < |src| && src[j] == c
  }

  function PastIdent(src: string): nat -> bool {
    (j: nat) => j < |src| && !IsIdentPart(src[j])
  }

  function PastNumber(src: string): nat -> bool {
    (j: nat) => j < |src| && !(IsDigit(src[j]) || src[j] == '.')
  }

  predicate IsQuote(c: char) {
    c == '\'' || c == '"'
  }

  /** The token that begins at i. A quoted text ends after its closing quote and a block comment after its closing
      mark - where the text ends first, one and two places past its end. */
  function TokenAt(src: string, i: nat): (t: Token)
    requires i < |src|
    ensures t.start == i < t.end <= |src| + 2
  {
    var c := src[i];
    var two := Slice(src, i, 2);
    if c == ' ' || c == '\t' || c == '\n' || c == '\r' then Token(Blank, i, i + 1)
    else if two == "//" || two == "--" then Token(Comment, i, First(src, i + 1, AtNewline(src)))
    else if two == "/*" then Token(Comment, i, First(src, i + 2, AtClose(src)) + 2)
    else if IsQuote(c) then Token(Text, i, First(src, i + 1, AtChar(src, c)) + 1)
    else if IsIdentStart(c) then Token(Ident, i, First(src, i + 1, PastIdent(src)))
    else if IsDigit(c) then Token(Number, i, First(src, i + 1, PastNumber(src)))
    else if Slice(src, i, 3) == "<->" then Token(Multi, i, i + 3)
    else if IsPair(two) then Token(Multi, i, i + 2)
    else Token(Punct, i, i + 1)
  }

  function Tokens(src: string, i: nat): seq<Token>
    decreases |src| - i
  {
    if i >= |src| then [] else [TokenAt(src, i)] + Tokens(src, TokenAt(src, i).end)
  }

  function End(src: string, i: nat): nat
    decreases |src| - i
  {
    if i >= |src| then i else End(src, TokenAt(src, i).end)
  }

  datatype Counts = Counts(ws: nat, ident: nat, digit: nat, strlit: nat, punct: nat, multi: nat, comment: nat) {
    function Fields(): seq<nat> {
      [ws, ident, digit, strlit, punct, multi, comment]
    }

    function Total(): nat {
      Sum(Fields())
    }

    function Of(kind: Kind): nat {
      match kind
      case Blank => ws
      case Ident => ident
      case Number => digit
      case Text => strlit
      case Punct => punct
      case Multi => multi
      case Comment => comment
    }
  }

  /** How many places the tokens of a class cover. */
  function Size(tokens: seq<Token>, kind: Kind): int {
    if tokens == [] then 0 else (if tokens[0].kind == kind then tokens[0].end - tokens[0].start else 0) + Size(tokens[1..], kind)
  }

  // -------------------------------------------------------------- the scanner --

  method Scan(src: string, i: nat, stop: nat -> bool) returns (j: nat)
    requires i <= |src|
    ensures j == First(src, i, stop)
  {
    j := i;
    while j < |src| && !stop(j)
      invariant i <= j <= |src| && First(src, j, stop) == First(src, i, stop)
    {
      j := j + 1;
    }
  }

  /** One step of the census: the class of the token at i, and where it ends. */
  method Consume(src: string, i: nat) returns (kind: Kind, end: nat)
    requires i < |src|
    ensures Token(kind, i, end) == TokenAt(src, i)
  {
    var c := src[i];
    var two := Slice(src, i, 2);
    if c == ' ' || c == '\t' || c == '\n' || c == '\r' {
      return Blank, i + 1;
    }
    if two == "//" || two == "--" {
      end := Scan(src, i, AtNewline(src));
      return Comment, end;
    }
    if two == "/*" {
      end := Scan(src, i + 2, AtClose(src));
      return Comment, end + 2;
    }
    if IsQuote(c) {
      end := Scan(src, i + 1, AtChar(src, c));
      return Text, end + 1;
    }
    if IsIdentStart(c) {
      end := Scan(src, i, PastIdent(src));
      return Ident, end;
    }
    if IsDigit(c) {
      end := Scan(src, i, PastNumber(src));
      return Number, end;
    }
    if Slice(src, i, 3) == "<->" {
      return Multi, i + 3;
    }
    if IsPair(two) {
      return Multi, i + 2;
    }
    return Punct, i + 1;
  }

  // ---------------------------------------------------------- what it accounts for --

  /** A quoted text with no closing quote, or a block comment with no closing mark, in the rest of the text. */
  predicate OpenText(src: string, t: Token) {
    t.kind == Text && t.start < |src| && forall j | t.start < j < |src| :: src[j] != src[t.start]
  }

  predicate OpenComment(src: string, t: Token) {
    t.kind == Comment && Slice(src, t.start, 2) == "/*" && forall j | t.start + 2 <= j < |src| :: Slice(src, j, 2) != "*/"
  }

  lemma CommentEnd(src: string, i: nat)
    requires i < |src| && Slice(src, i, 2) == "/*"
    ensures var r := First(src, i + 2, AtClose(src));
            if exists j | i + 2 <= j < |src| :: Slice(src, j, 2) == "*/" then r + 2 <= |src| else r == |src|
  {
    var stop := AtClose(src);
    var r := First(src, i + 2, stop);
    assert r < |src| ==> Slice(src, r, 2) == "*/" && |"*/"| == 2;
    forall j: nat | i + 2 <= j < r ensures Slice(src, j, 2) != "*/" {
      assert !stop(j);
    }
  }

  lemma TextEnd(src: string, i: nat)
    requires i < |src|
    ensures var r := First(src, i + 1, AtChar(src, src[i]));
            if exists j | i < j < |src| :: src[j] == src[i] then r < |src| else r == |src|
  {
    var stop := AtChar(src, src[i]);
    var r := First(src, i + 1, stop);
    assert r < |src| ==> src[r] == src[i];
    forall j: nat | i + 1 <= j < r ensures src[j] != src[i] {
      assert !stop(j);
    }
  }

  lemma MarkFits(src: string, i: nat)
    ensures Slice(src, i, 3) == "<->" ==> i + 3 <= |src|
    ensures IsPair(Slice(src, i, 2)) ==> i + 2 <= |src|
  {
  }

  lemma TokenOvershoots(src: string, i: nat)
    requires i < |src|
    ensures var t := TokenAt(src, i);
            if OpenComment(src, t) then t.end == |src| + 2
            else if OpenText(src, t) then t.end == |src| + 1
            else t.end <= |src|
  {
    MarkFits(src, i);
    if Slice(src, i, 2) == "/*" {
      CommentEnd(src, i);
    } else if IsQuote(src[i]) {
      TextEnd(src, i);
    }
  }

  /** The cursor ends at the end of the text exactly when every quoted text and block comment is closed;
      else it ends one place past it for a text, and two for a comment. */
  lemma {:induction false} OvershootsExactlyWhenOpen(src: string, i: nat)
    requires i <= |src|
    ensures (exists t | t in Tokens(src, i) :: OpenComment(src, t)) <==> End(src, i) == |src| + 2
    ensures (exists t | t in Tokens(src, i) :: OpenText(src, t)) <==> End(src, i) == |src| + 1
    ensures |src| <= End(src, i) <= |src| + 2
    decreases |src| - i
  {
    if i < |src| {
      var t := TokenAt(src, i);
      TokenOvershoots(src, i);
      assert Tokens(src, i)[0] == t;
      if t.end <= |src| {
        OvershootsExactlyWhenOpen(src, t.end);
        assert forall u :: u in Tokens(src, i) <==> u == t || u in Tokens(src, t.end);
      } else {
        assert Tokens(src, i) == [t];
      }
    }
  }

  // ----------------------------------------------------------- what the tokens are --

  lemma SliceSpells(src: string, i: nat, mark: string)
    ensures Slice(src, i, |mark|) == mark <==> Spells(src, i, mark) || mark == ""
  {
    if Slice(src, i, |mark|) == mark && mark != "" {
      assert i + |mark| <= |src| && src[i..i + |mark|] == mark;
      forall j | 0 <= j < |mark| ensures src[i + j] == mark[j] {
        assert src[i + j] == src[i..i + |mark|][j];
      }
    }
    if Spells(src, i, mark) && mark != "" {
      assert src[i..i + |mark|] == mark;
    }
  }

  lemma ClassesAgree(c: char)
    ensures IsIdentStart(c) == Letter(c) && IsDigit(c) == Digit(c) && IsIdentPart(c) == InName(c)
  {
  }

  lemma CommentShaped(src: string, i: nat)
    requires i < |src| && OpensComment(src, i) && src[i] !in BLANKS
    ensures Shaped(src, TokenAt(src, i))
  {
    SliceSpells(src, i, "//");
    SliceSpells(src, i, "--");
    SliceSpells(src, i, "/*");
    var t := TokenAt(src, i);
    if Spells(src, i, "/*") {
      BlockShaped(src, i);
    } else {
      assert src[i] != '\n';
      var stop := AtNewline(src);
      forall j: nat | i + 1 <= j < t.end ensures src[j] != '\n' {
        assert !stop(j);
      }
    }
  }

  lemma BlockShaped(src: string, i: nat)
    requires i < |src| && Spells(src, i, "/*")
    ensures IsBlockComment(src, Token(Comment, i, First(src, i + 2, AtClose(src)) + 2))
  {
    SliceSpells(src, i, "/*");
    CommentEnd(src, i);
    var stop := AtClose(src);
    var r := First(src, i + 2, stop);
    SliceSpells(src, r, "*/");
    forall j: nat | i + 2 <= j < r ensures !Spells(src, j, "*/") {
      assert !stop(j);
      SliceSpells(src, j, "*/");
    }
  }

  lemma TextShaped(src: string, i: nat)
    requires i < |src| && IsQuote(src[i])
    ensures IsQuoted(src, Token(Text, i, First(src, i + 1, AtChar(src, src[i])) + 1))
  {
    var stop := AtChar(src, src[i]);
    var r := First(src, i + 1, stop);
    forall j: nat | i + 1 <= j < r ensures src[j] != src[i] {
      assert !stop(j);
    }
  }

  lemma NameShaped(src: string, i: nat)
    requires i < |src| && Letter(src[i])
    ensures Runs(src, Token(Ident, i, First(src, i + 1, PastIdent(src))), InName)
  {
    var stop := PastIdent(src);
    var r := First(src, i + 1, stop);
    forall j: nat | i <= j < r ensures InName(src[j]) {
      assert j > i ==> !stop(j);
      ClassesAgree(src[j]);
    }
    if r < |src| {
      ClassesAgree(src[r]);
    }
  }

  lemma NumberShaped(src: string, i: nat)
    requires i < |src| && Digit(src[i])
    ensures Runs(src, Token(Number, i, First(src, i + 1, PastNumber(src))), InNumber)
  {
    var stop := PastNumber(src);
    var r := First(src, i + 1, stop);
    forall j: nat | i <= j < r ensures InNumber(src[j]) {
      assert j > i ==> !stop(j);
      ClassesAgree(src[j]);
    }
    if r < |src| {
      ClassesAgree(src[r]);
    }
  }

  lemma PairIs(two: string)
    ensures IsPair(two) <==> exists m: nat | 1 <= m < |MARKS| :: two == MARKS[m]
  {
    if IsPair(two) {
      var m: nat := if two == "->" then 1 else if two == "<-" then 2 else if two == "<~" then 3 else if two == "~>" then 4
                    else if two == "<>" then 5 else if two == "<=" then 6 else if two == ">=" then 7 else 8;
      assert two == MARKS[m];
    }
  }

  lemma MarkSizes(m: nat)
    requires m < |MARKS|
    ensures |MARKS[m]| == if m == 0 then 3 else 2
  {
  }

  lemma MarksAre(src: string, i: nat)
    ensures Slice(src, i, 3) == "<->" <==> Spells(src, i, MARKS[0])
    ensures IsPair(Slice(src, i, 2)) <==> exists m: nat | 1 <= m < |MARKS| :: Spells(src, i, MARKS[m])
  {
    SliceSpells(src, i, MARKS[0]);
    PairIs(Slice(src, i, 2));
    hide Spells, Slice, IsPair;
    forall m: nat | 1 <= m < |MARKS| ensures Slice(src, i, 2) == MARKS[m] <==> Spells(src, i, MARKS[m]) {
      SliceSpells(src, i, MARKS[m]);
      MarkSizes(m);
    }
  }

  /** The marks and the single characters. */
  lemma MarkShaped(src: string, i: nat)
    requires i < |src| && src[i] !in BLANKS + QUOTES && !InName(src[i]) && !OpensComment(src, i)
    ensures Shaped(src, if Slice(src, i, 3) == "<->" then Token(Multi, i, i + 3)
                        else if IsPair(Slice(src, i, 2)) then Token(Multi, i, i + 2)
                        else Token(Punct, i, i + 1))
  {
    MarksAre(src, i);
    hide Spells;
    if Slice(src, i, 3) == "<->" {
      assert Spells(src, i, MARKS[0]) && |MARKS[0]| == 3;
    } else if IsPair(Slice(src, i, 2)) {
      var m: nat :| 1 <= m < |MARKS| && Spells(src, i, MARKS[m]);
      assert |MARKS[m]| == 2;
    }
  }

  /** Every token has the shape of its class. */
  lemma TokenShaped(src: string, i: nat)
    requires i < |src|
    ensures Shaped(src, TokenAt(src, i)) && TokenAt(src, i).start == i
  {
    ClassesAgree(src[i]);
    SliceSpells(src, i, "//");
    SliceSpells(src, i, "--");
    SliceSpells(src, i, "/*");
    if src[i] in BLANKS {
    } else if OpensComment(src, i) {
      CommentShaped(src, i);
    } else if IsQuote(src[i]) {
      TextShaped(src, i);
    } else if Letter(src[i]) {
      NameShaped(src, i);
    } else if Digit(src[i]) {
      NumberShaped(src, i);
    } else {
      MarkShaped(src, i);
    }
  }

  /** The tokens are the one way to cut the text into shapes. */
  lemma {:induction false} TokensCut(src: string, i: nat)
    ensures Cuts(src, Tokens(src, i), i)
    decreases |src| - i
  {
    if i < |src| {
      TokenShaped(src, i);
      var t := TokenAt(src, i);
      TokensCut(src, t.end);
      assert Tokens(src, i)[0] == t && Tokens(src, i)[1..] == Tokens(src, t.end);
    }
  }

  lemma OnlyCut(src: string, ts: seq<Token>)
    ensures Cuts(src, ts, 0) <==> ts == Tokens(src, 0)
  {
    TokensCut(src, 0);
    if Cuts(src, ts, 0) {
      OneCut(src, ts, Tokens(src, 0), 0);
    }
  }

  /** Where a class stands among the counters. */
  function Place(kind: Kind): nat {
    match kind
    case Blank => 0
    case Ident => 1
    case Number => 2
    case Text => 3
    case Punct => 4
    case Multi => 5
    case Comment => 6
  }

  lemma TotalIsDot(c: Counts)
    ensures c.Total() == Dot(c.Fields(), Ones(7))
  {
    var f := c.Fields();
    assert |f| == 7;
    DotOnes(f);
  }

  lemma TotalGrows(c: Counts, d: Counts, i: nat, n: nat)
    requires i < 7 && d.Fields() == c.Fields()[i := c.Fields()[i] + n]
    ensures d.Total() == c.Total() + n
  {
    var ones := Ones(7);
    DotBump(c.Fields(), d.Fields(), ones, i, n);
    assert n * ones[i] == n;
    TotalIsDot(c);
    TotalIsDot(d);
  }

  /** One counter goes up, and so does their sum. */
  method Add(c: Counts, kind: Kind, n: nat) returns (d: Counts)
    ensures forall k :: d.Of(k) == c.Of(k) + if k == kind then n else 0
    ensures d.Total() == c.Total() + n
  {
    match kind {
      case Blank => d := c.(ws := c.ws + n);
      case Ident => d := c.(ident := c.ident + n);
      case Number => d := c.(digit := c.digit + n);
      case Text => d := c.(strlit := c.strlit + n);
      case Punct => d := c.(punct := c.punct + n);
      case Multi => d := c.(multi := c.multi + n);
      case Comment => d := c.(comment := c.comment + n);
    }
    TotalGrows(c, d, Place(kind), n);
  }

  /** The seven counters are the sizes of the seven classes and always sum to the final cursor: no place is dropped
      or counted twice. That is the length of the text exactly when every quoted text and block comment is closed. */
  method TakeCensus(src: string) returns (out: Counts, cursor: nat)
    ensures forall kind :: out.Of(kind) == Size(Tokens(src, 0), kind)
    ensures forall ts | Cuts(src, ts, 0) :: forall kind :: out.Of(kind) == Size(ts, kind)
    ensures Cuts(src, Tokens(src, 0), 0)
    ensures cursor == End(src, 0) == out.Total()
    ensures cursor == |src| <==> forall t | t in Tokens(src, 0) :: !OpenText(src, t) && !OpenComment(src, t)
  {
    out, cursor := Counts(0, 0, 0, 0, 0, 0, 0), 0;
    DotZeros(out.Fields(), Ones(7));
    TotalIsDot(out);
    while cursor < |src|
      invariant End(src, cursor) == End(src, 0) && out.Total() == cursor
      invariant forall kind :: Size(Tokens(src, 0), kind) == Size(Tokens(src, cursor), kind) + out.Of(kind)
      decreases |src| - cursor
    {
      var kind, end := Consume(src, cursor);
      out := Add(out, kind, end - cursor);
      cursor := end;
    }
    OvershootsExactlyWhenOpen(src, 0);
    TokensCut(src, 0);
    forall ts | Cuts(src, ts, 0) ensures ts == Tokens(src, 0) {
      OnlyCut(src, ts);
    }
  }
}
