/**
 * JSON text as far as its braces need it: string literals and other characters, and the scanner that
 * tells them apart one character at a time.
 */
module ToolText {

  // --- the text --------------------------------------------------------------------------------

  /** What stands in a string literal: a character, or a backslash and any character. */
  datatype Item = Char(c: char) | Escape(c: char)

  /** A character outside string literals, or a whole literal. */
  datatype Piece = Other(c: char) | Literal(items: seq<Item>)

  predicate IsItem(x: Item) {
    x.Char? ==> x.c != '"' && x.c != '\\'
  }

  predicate IsPiece(p: Piece) {
    match p
    case Other(c) => c != '"'
    case Literal(items) => forall x | x in items :: IsItem(x)
  }

  function ItemsText(items: seq<Item>): string {
    if items == [] then ""
    else
      var x := items[|items| - 1];
      ItemsText(items[..|items| - 1]) + if x.Char? then [x.c] else ['\\', x.c]
  }

  function PieceText(p: Piece): string {
    match p
    case Other(c) => [c]
    case Literal(items) => "\"" + ItemsText(items) + "\""
  }

  function Text(pieces: seq<Piece>): string {
    if pieces == [] then "" else Text(pieces[..|pieces| - 1]) + PieceText(pieces[|pieces| - 1])
  }

  /** Opening less closing braces, those in literals left out. */
  function Nesting(pieces: seq<Piece>): int {
    if pieces == [] then 0
    else
      var p := pieces[|pieces| - 1];
      Nesting(pieces[..|pieces| - 1]) + if p == Other('{') then 1 else if p == Other('}') then -1 else 0
  }

  predicate IsText(pieces: seq<Piece>) {
    forall p | p in pieces :: IsPiece(p)
  }

  /** The last piece is the first closing brace at which the braces are balanced. */
  predicate Balances(pieces: seq<Piece>) {
    && pieces != [] && pieces[|pieces| - 1] == Other('}') && Nesting(pieces) == 0
    && forall n | 0 < n < |pieces| && pieces[n - 1] == Other('}') :: Nesting(pieces[..n]) != 0
  }

  /** From `i` to before `j` stands a text whose braces are first balanced at its end. */
  ghost predicate Closes(content: string, i: nat, j: nat)
    requires i <= j <= |content|
  {
    exists pieces :: IsText(pieces) && Balances(pieces) && Text(pieces) == content[i..j]
  }

  // --- the scanner -----------------------------------------------------------------------------

  /** Inside a string literal, and whether the next character is escaped. */
  datatype Quote = Quote(inString: bool, escaped: bool)

  /** The quoting after one character more. */
  function Next(q: Quote, c: char): Quote {
    if q.escaped then Quote(q.inString, false)
    else if c == '\\' && q.inString then Quote(true, true)
    else if c == '"' then Quote(!q.inString, false)
    else q
  }

  /** The quoting just before position `j`, scanning from `i`. */
  function QuoteAt(content: string, i: nat, j: nat): Quote
    requires i <= j <= |content|
  {
    if j == i then Quote(false, false) else Next(QuoteAt(content, i, j - 1), content[j - 1])
  }

  /** The character at `j` is `c` and stands outside string literals. */
  predicate IsBare(content: string, i: nat, j: nat, c: char)
    requires i <= j < |content|
  {
    content[j] == c && QuoteAt(content, i, j) == Quote(false, false)
  }

  /** How often `c` stands outside string literals from `i` to before `j`. */
  function CountBare(content: string, i: nat, j: nat, c: char): nat
    requires i <= j <= |content|
  {
    if j == i then 0 else CountBare(content, i, j - 1, c) + if IsBare(content, i, j - 1, c) then 1 else 0
  }

  function Depth(content: string, i: nat, j: nat): int
    requires i <= j <= |content|
  {
    CountBare(content, i, j, '{') - CountBare(content, i, j, '}')
  }

  /** The braces opened from `i` on are first balanced again by a closing brace just before `j`. */
  predicate ClosesAt(content: string, i: nat, j: nat)
    requires i <= |content| && j <= |content|
  {
    && i < j && IsBare(content, i, j - 1, '}') && Depth(content, i, j) == 0
    && forall k | i < k < j && IsBare(content, i, k - 1, '}') :: Depth(content, i, k) != 0
  }

  lemma ClosesOnce(content: string, i: nat, j: nat, k: nat)
    requires i <= |content| && j <= |content| && k <= |content|
    requires ClosesAt(content, i, j) && ClosesAt(content, i, k)
    ensures j == k
  {
  }

  // --- the scanner reads the text --------------------------------------------------------------

  /** The text stands in `content` from `a` on. */
  predicate StandsAt(content: string, a: nat, text: string) {
    a + |text| <= |content| && content[a..a + |text|] == text
  }

  lemma StandsFits(content: string, a: nat, text: string)
    requires StandsAt(content, a, text)
    ensures a + |text| <= |content|
  {
  }

  lemma StandsSplit(content: string, a: nat, s: string, t: string)
    requires StandsAt(content, a, s + t)
    ensures StandsAt(content, a, s) && StandsAt(content, a + |s|, t)
  {
    assert content[a..a + |s|] == content[a..a + |s + t|][..|s|];
    assert content[a + |s|..a + |s| + |t|] == content[a..a + |s + t|][|s|..];
  }

  lemma StandsChar(content: string, a: nat, t: string, k: nat)
    requires StandsAt(content, a, t) && k < |t|
    ensures content[a + k] == t[k]
  {
    assert content[a..a + |t|][k] == t[k];
  }

  lemma ScanItem(content: string, i: nat, a: nat, x: Item)
    requires i <= a && IsItem(x) && StandsAt(content, a, if x.Char? then [x.c] else ['\\', x.c])
    requires QuoteAt(content, i, a) == Quote(true, false)
    ensures var b := a + if x.Char? then 1 else 2;
            && QuoteAt(content, i, b) == Quote(true, false) && Depth(content, i, b) == Depth(content, i, a)
            && forall k | a <= k < b :: QuoteAt(content, i, k).inString
  {
    StandsChar(content, a, if x.Char? then [x.c] else ['\\', x.c], 0);
    assert Depth(content, i, a + 1) == Depth(content, i, a);
    if x.Escape? {
      assert QuoteAt(content, i, a + 1) == Quote(true, true);
    }
  }

  /** Inside a literal the scanner stays inside, and no brace counts. */
  lemma {:induction false} ScanItems(content: string, i: nat, a: nat, items: seq<Item>)
    requires i <= a && (forall x | x in items :: IsItem(x)) && StandsAt(content, a, ItemsText(items))
    requires QuoteAt(content, i, a) == Quote(true, false)
    ensures var b := a + |ItemsText(items)|;
            && QuoteAt(content, i, b) == Quote(true, false) && Depth(content, i, b) == Depth(content, i, a)
            && forall k | a <= k < b :: QuoteAt(content, i, k).inString
  {
    if items != [] {
      var front, x := items[..|items| - 1], items[|items| - 1];
      StandsSplit(content, a, ItemsText(front), if x.Char? then [x.c] else ['\\', x.c]);
      ScanItems(content, i, a, front);
      ScanItem(content, i, a + |ItemsText(front)|, x);
    }
  }

  /** A quote that is not escaped opens or closes a literal, and counts as no brace. */
  lemma ScanQuote(content: string, i: nat, j: nat)
    requires i <= j < |content| && content[j] == '"' && !QuoteAt(content, i, j).escaped
    ensures QuoteAt(content, i, j + 1) == Quote(!QuoteAt(content, i, j).inString, false)
    ensures Depth(content, i, j + 1) == Depth(content, i, j) && !IsBare(content, i, j, '}')
  {
  }

  /** Scanning a whole literal from outside literals leaves quoting and depth as they were. */
  lemma ScanLiteral(content: string, i: nat, a: nat, items: seq<Item>)
    requires i <= a && IsPiece(Literal(items)) && StandsAt(content, a, PieceText(Literal(items)))
    requires QuoteAt(content, i, a) == Quote(false, false)
    ensures var b := a + |PieceText(Literal(items))|;
            && QuoteAt(content, i, b) == Quote(false, false) && Depth(content, i, b) == Depth(content, i, a)
            && forall k | a <= k < b :: !IsBare(content, i, k, '}')
  {
    hide QuoteAt, CountBare, Depth, StandsAt, ItemsText, PieceText, IsItem, IsBare;
    var b := a + 1 + |ItemsText(items)|;
    LiteralStands(content, a, items);
    ScanQuote(content, i, a);
    ScanItems(content, i, a + 1, items);
    ScanQuote(content, i, b);
    forall k | a < k < b ensures !IsBare(content, i, k, '}') {
      InsideIsNotBare(content, i, k);
    }
  }

  lemma InsideIsNotBare(content: string, i: nat, k: nat)
    requires i <= k < |content|
    ensures QuoteAt(content, i, k).inString ==> !IsBare(content, i, k, '}')
  {
  }

  /** Where the parts of a literal stand. */
  lemma LiteralStands(content: string, a: nat, items: seq<Item>)
    requires StandsAt(content, a, PieceText(Literal(items)))
    ensures var text := ItemsText(items);
            && |PieceText(Literal(items))| == |text| + 2 && a + |text| + 2 <= |content|
            && content[a] == '"' && content[a + 1 + |text|] == '"' && StandsAt(content, a + 1, text)
  {
    hide StandsAt, ItemsText;
    var text := ItemsText(items);
    StandsFits(content, a, PieceText(Literal(items)));
    StandsSplit(content, a, "\"" + text, "\"");
    StandsSplit(content, a, "\"", text);
    StandsChar(content, a, "\"", 0);
    StandsChar(content, a + 1 + |text|, "\"", 0);
  }

  lemma ScanPiece(content: string, i: nat, a: nat, p: Piece)
    requires i <= a && IsPiece(p) && StandsAt(content, a, PieceText(p)) && QuoteAt(content, i, a) == Quote(false, false)
    ensures var b := a + |PieceText(p)|;
            && QuoteAt(content, i, b) == Quote(false, false)
            && Depth(content, i, b) == Depth(content, i, a) + Nesting([p])
            && forall k | a <= k < b && IsBare(content, i, k, '}') :: p == Other('}') && k + 1 == b
  {
    assert [p][..0] == [];
    match p
    case Other(c) => StandsChar(content, a, [c], 0);
    case Literal(items) => ScanLiteral(content, i, a, items);
  }

  lemma Snoc(front: seq<Piece>, p: Piece)
    ensures Text(front + [p]) == Text(front) + PieceText(p)
    ensures Nesting(front + [p]) == Nesting(front) + Nesting([p])
  {
    assert (front + [p])[..|front|] == front && [p][..0] == [];
  }

  lemma LastPiece(content: string, i: nat, pieces: seq<Piece>)
    requires IsText(pieces) && pieces != []
    ensures var front, p := pieces[..|pieces| - 1], pieces[|pieces| - 1];
            && IsText(front) && IsPiece(p)
            && |Text(pieces)| == |Text(front)| + |PieceText(p)| && Nesting(pieces) == Nesting(front) + Nesting([p])
            && (StandsAt(content, i, Text(pieces)) ==>
                  StandsAt(content, i, Text(front)) && StandsAt(content, i + |Text(front)|, PieceText(p)))
  {
    var front, p := pieces[..|pieces| - 1], pieces[|pieces| - 1];
    assert pieces == front + [p];
    Snoc(front, p);
    if StandsAt(content, i, Text(pieces)) {
      StandsSplit(content, i, Text(front), PieceText(p));
    }
  }

  /** After whole pieces the scanner is outside literals, at the nesting of the pieces. */
  lemma {:induction false} ScanPieces(content: string, i: nat, pieces: seq<Piece>)
    requires IsText(pieces) && StandsAt(content, i, Text(pieces))
    ensures i + |Text(pieces)| <= |content|
    ensures var b := i + |Text(pieces)|;
            QuoteAt(content, i, b) == Quote(false, false) && Depth(content, i, b) == Nesting(pieces)
    decreases |pieces|
  {
    hide QuoteAt, CountBare, Depth, Nesting, PieceText, StandsAt, Text, IsText, IsPiece;
    StandsFits(content, i, Text(pieces));
    if pieces == [] {
      ScanNothing(content, i);
    } else {
      var front, p := pieces[..|pieces| - 1], pieces[|pieces| - 1];
      LastPiece(content, i, pieces);
      ScanPieces(content, i, front);
      ScanPiece(content, i, i + |Text(front)|, p);
    }
  }

  lemma ScanNothing(content: string, i: nat)
    requires i <= |content|
    ensures Text([]) == "" && Nesting([]) == 0
    ensures QuoteAt(content, i, i) == Quote(false, false) && Depth(content, i, i) == 0
  {
  }

  /** A closing brace that the scanner counts is a piece of its own. */
  lemma {:induction false} BareIsPiece(content: string, i: nat, pieces: seq<Piece>, k: nat) returns (n: nat)
    requires IsText(pieces) && StandsAt(content, i, Text(pieces))
    requires i <= k < i + |Text(pieces)| && IsBare(content, i, k, '}')
    ensures 0 < n <= |pieces| && pieces[n - 1] == Other('}') && k + 1 == i + |Text(pieces[..n])|
    decreases |pieces|
  {
    hide IsBare, IsText, IsPiece, StandsAt, Text, PieceText, Nesting, QuoteAt, Depth;
    StandsFits(content, i, Text(pieces));
    if pieces == [] {
      NoText();
    } else {
      var front, p := pieces[..|pieces| - 1], pieces[|pieces| - 1];
      LastPiece(content, i, pieces);
      if k < i + |Text(front)| {
        n := BareIsPiece(content, i, front, k);
        assert front[..n] == pieces[..n];
      } else {
        ScanPieces(content, i, front);
        ScanPiece(content, i, i + |Text(front)|, p);
        n := |pieces|;
        WholePrefix(pieces);
      }
    }
  }

  lemma NoText()
    ensures Text([]) == ""
  {
  }

  // --- every text has its pieces ---------------------------------------------------------------

  /** What the scanner has read of a literal that is not finished. */
  function Pending(q: Quote, items: seq<Item>): string {
    (if q.inString then "\"" + ItemsText(items) else "") + if q.escaped then "\\" else ""
  }

  lemma NextPieces(pieces: seq<Piece>, items: seq<Item>, q: Quote, c: char) returns (more: seq<Piece>, open: seq<Item>)
    requires IsText(pieces) && (forall x | x in items :: IsItem(x)) && (q.escaped ==> q.inString)
    ensures IsText(more) && (forall x | x in open :: IsItem(x)) && (Next(q, c).escaped ==> Next(q, c).inString)
    ensures Text(pieces) + Pending(q, items) + [c] == Text(more) + Pending(Next(q, c), open)
  {
    hide Text, ItemsText;
    more, open := pieces, items;
    if !q.inString {
      if c == '"' {
        open := [];
        NoItems();
      } else {
        Snoc(pieces, Other(c));
        more := pieces + [Other(c)];
      }
    } else if q.escaped {
      ItemsSnoc(items, Escape(c));
      open := items + [Escape(c)];
      Associates(Text(pieces), "\"", ItemsText(items), ['\\', c]);
    } else if c == '"' {
      Snoc(pieces, Literal(items));
      more := pieces + [Literal(items)];
    } else if c != '\\' {
      ItemsSnoc(items, Char(c));
      open := items + [Char(c)];
      Associates(Text(pieces), "\"", ItemsText(items), [c]);
    }
  }

  lemma NoItems()
    ensures ItemsText([]) == ""
  {
  }

  lemma Associates(a: string, b: string, c: string, d: string)
    ensures a + (b + (c + d)) == a + (b + c) + d
  {
  }

  /** The pieces up to `j`, and the items of a literal that is not finished there. */
  lemma {:induction false} Pieces(content: string, i: nat, j: nat) returns (pieces: seq<Piece>, items: seq<Item>)
    requires i <= j <= |content|
    ensures IsText(pieces) && forall x | x in items :: IsItem(x)
    ensures var q := QuoteAt(content, i, j);
            (q.escaped ==> q.inString) && content[i..j] == Text(pieces) + Pending(q, items)
  {
    hide Pending, IsText, IsItem, Next, Text, QuoteAt;
    if j == i {
      pieces, items := [], [];
      NoPieces(content, i);
    } else {
      pieces, items := Pieces(content, i, j - 1);
      NextQuote(content, i, j);
      assert content[i..j] == content[i..j - 1] + [content[j - 1]];
      pieces, items := NextPieces(pieces, items, QuoteAt(content, i, j - 1), content[j - 1]);
    }
  }

  lemma NoPieces(content: string, i: nat)
    requires i <= |content|
    ensures IsText([]) && Text([]) + Pending(Quote(false, false), []) == ""
    ensures QuoteAt(content, i, i) == Quote(false, false)
  {
  }

  lemma NextQuote(content: string, i: nat, j: nat)
    requires i < j <= |content|
    ensures QuoteAt(content, i, j) == Next(QuoteAt(content, i, j - 1), content[j - 1])
  {
  }

  lemma ItemsSnoc(front: seq<Item>, x: Item)
    ensures ItemsText(front + [x]) == ItemsText(front) + if x.Char? then [x.c] else ['\\', x.c]
  {
    assert (front + [x])[..|front|] == front;
  }

  // --- what the scanner finds ------------------------------------------------------------------

  lemma {:induction false} PrefixStands(content: string, i: nat, pieces: seq<Piece>, n: nat)
    requires IsText(pieces) && StandsAt(content, i, Text(pieces)) && n <= |pieces|
    ensures IsText(pieces[..n]) && StandsAt(content, i, Text(pieces[..n]))
    ensures n < |pieces| ==> |Text(pieces[..n])| < |Text(pieces)|
  {
    if n == |pieces| {
      assert pieces[..n] == pieces;
    } else {
      hide StandsAt, IsPiece, Text;
      var front := pieces[..|pieces| - 1];
      LastPiece(content, i, pieces);
      PrefixStands(content, i, front, n);
      assert front[..n] == pieces[..n];
    }
  }

  /** A brace that is a piece is one the scanner counts. */
  lemma PieceIsBare(content: string, i: nat, pieces: seq<Piece>)
    requires IsText(pieces) && StandsAt(content, i, Text(pieces)) && pieces != []
    requires pieces[|pieces| - 1] == Other('}')
    ensures var k := i + |Text(pieces)|;
            i < k && IsBare(content, i, k - 1, '}') && Depth(content, i, k) == Nesting(pieces)
  {
    hide QuoteAt, Depth, StandsAt, Text, IsText, Nesting;
    var front := pieces[..|pieces| - 1];
    StandsFits(content, i, Text(pieces));
    ScanPieces(content, i, pieces);
    LastPiece(content, i, pieces);
    ScanPieces(content, i, front);
    StandsChar(content, i + |Text(front)|, "}", 0);
  }

  lemma BalancedCloses(content: string, i: nat, pieces: seq<Piece>)
    requires IsText(pieces) && Balances(pieces) && StandsAt(content, i, Text(pieces))
    ensures i + |Text(pieces)| <= |content| && ClosesAt(content, i, i + |Text(pieces)|)
  {
    var j := i + |Text(pieces)|;
    hide IsBare, Depth, StandsAt, Text, IsText;
    StandsFits(content, i, Text(pieces));
    PieceIsBare(content, i, pieces);
    forall k | i < k < j && IsBare(content, i, k - 1, '}') ensures Depth(content, i, k) != 0 {
      var n := BareIsPiece(content, i, pieces, k - 1);
      PrefixStands(content, i, pieces, n);
      WholePrefix(pieces);
      ScanPieces(content, i, pieces[..n]);
    }
  }

  lemma WholePrefix(pieces: seq<Piece>)
    ensures pieces[..|pieces|] == pieces
  {
  }

  lemma ClosingPieces(content: string, i: nat, j: nat) returns (pieces: seq<Piece>)
    requires i < j <= |content| && IsBare(content, i, j - 1, '}')
    ensures IsText(pieces) && pieces != [] && pieces[|pieces| - 1] == Other('}') && Text(pieces) == content[i..j]
  {
    hide Pending, Text, IsText, QuoteAt;
    var front, items := Pieces(content, i, j - 1);
    NothingPending(items);
    pieces := front + [Other('}')];
    Snoc(front, Other('}'));
    Closed(front);
    assert content[i..j] == content[i..j - 1] + "}";
  }

  lemma NothingPending(items: seq<Item>)
    ensures Pending(Quote(false, false), items) == ""
  {
  }

  lemma Closed(front: seq<Piece>)
    requires IsText(front)
    ensures IsText(front + [Other('}')])
  {
  }

  lemma ClosingBalances(content: string, i: nat, j: nat)
    requires i <= j <= |content| && ClosesAt(content, i, j)
    ensures Closes(content, i, j)
  {
    var pieces := ClosingPieces(content, i, j);
    assert StandsAt(content, i, Text(pieces));
    hide Depth, IsBare, StandsAt, Text, IsText;
    PieceIsBare(content, i, pieces);
    forall n | 0 < n < |pieces| && pieces[n - 1] == Other('}') ensures Nesting(pieces[..n]) != 0 {
      PrefixStands(content, i, pieces, n);
      PieceIsBare(content, i, pieces[..n]);
    }
    assert Balances(pieces);
  }

  /** The scanner closes exactly where the braces of the text are first balanced. */
  lemma ClosesIff(content: string, i: nat, j: nat)
    requires i <= j <= |content|
    ensures Closes(content, i, j) <==> ClosesAt(content, i, j)
  {
    hide ClosesAt, Balances, Text, IsText, StandsAt;
    if Closes(content, i, j) {
      var pieces :| IsText(pieces) && Balances(pieces) && Text(pieces) == content[i..j];
      PiecesStand(content, i, j, Text(pieces));
      BalancedCloses(content, i, pieces);
    }
    if ClosesAt(content, i, j) {
      ClosingBalances(content, i, j);
    }
  }

  lemma PiecesStand(content: string, i: nat, j: nat, text: string)
    requires i <= j <= |content| && text == content[i..j]
    ensures StandsAt(content, i, text) && i + |text| == j
  {
  }
}
