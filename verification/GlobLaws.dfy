/**
  Globs written out and read back: classes, escapes, stars.
 */
module GlobLaws {
  import opened Layers
  import opened GlobMatcher

  // A character, behind a backslash or not.
  datatype Letter = Letter(c: char, escaped: bool)

  // A member of a class: a character or a range.
  datatype Item = One(letter: Letter) | Span(low: Letter, high: Letter)

  function LetterText(l: Letter): string {
    if l.escaped then ['\\', l.c] else [l.c]
  }

  function Start(i: Item): Letter {
    match i
    case One(l) => l
    case Span(l, _) => l
  }

  function ItemText(i: Item): string {
    match i
    case One(l) => LetterText(l)
    case Span(l, h) => LetterText(l) + ("-" + LetterText(h))
  }

  function BodyText(items: seq<Item>): string {
    if items == [] then "" else ItemText(items[0]) + BodyText(items[1..])
  }

  // `mark` is "!" or "^" for the complement.
  function ClassText(mark: string, items: seq<Item>): string {
    "[" + (mark + (BodyText(items) + "]"))
  }

  predicate Bare(l: Letter, c: char) { !l.escaped && l.c == c }

  predicate Writable(l: Letter) { !Bare(l, '\\') && !Bare(l, ']') }

  // A bare ']' stands in first place only, and a bare '-' only where it cannot be taken for a range:
  // first, after a range, or as the last member.
  predicate WellWritten(items: seq<Item>, first: bool, afterOne: bool) {
    items != [] ==>
      && (Writable(Start(items[0])) || (first && Bare(Start(items[0]), ']')))
      && (items[0].Span? ==> Writable(items[0].high))
      && (Bare(Start(items[0]), '-') && afterOne ==> |items| == 1 && items[0].One?)
      && WellWritten(items[1..], false, items[0].One?)
  }

  predicate WellClassed(mark: string, items: seq<Item>) {
    && (mark == "" || mark == "!" || mark == "^") && items != [] && WellWritten(items, true, false)
    && (mark == "" ==> !Bare(Start(items[0]), '!') && !Bare(Start(items[0]), '^'))
  }

  predicate Covers(i: Item, c: char) {
    match i
    case One(l) => c == l.c
    case Span(l, h) => l.c <= c <= h.c
  }

  function RangeOf(i: Item): Range {
    match i
    case One(l) => Range(l.c, l.c)
    case Span(l, h) => Range(l.c, h.c)
  }

  function Ranges(items: seq<Item>): seq<Range> {
    if items == [] then [] else [RangeOf(items[0])] + Ranges(items[1..])
  }

  // x stands at position i.
  predicate Stands(glob: string, i: nat, x: string) {
    i + |x| <= |glob| && glob[i..i + |x|] == x
  }

  lemma StandsParts(glob: string, i: nat, x: string, y: string)
    requires Stands(glob, i, x + y)
    ensures Stands(glob, i, x) && Stands(glob, i + |x|, y)
  {
    assert glob[i..i + |x + y|][..|x|] == x;
    assert glob[i..i + |x + y|][|x|..] == y;
  }

  lemma StandsAt(glob: string, i: nat, x: string, k: nat)
    requires Stands(glob, i, x) && k < |x|
    ensures i + k < |glob| && glob[i + k] == x[k]
  {
    assert glob[i..i + |x|][k] == x[k];
  }

  lemma LetterStands(glob: string, i: nat, l: Letter)
    requires Stands(glob, i, LetterText(l))
    ensures if l.escaped then i + 1 < |glob| && glob[i] == '\\' && glob[i + 1] == l.c else i < |glob| && glob[i] == l.c
  {
    StandsAt(glob, i, LetterText(l), 0);
    if l.escaped { StandsAt(glob, i, LetterText(l), 1); }
  }

  // An item is its first letter and, of a range, a hyphen and the second.
  lemma ItemParts(glob: string, i: nat, item: Item)
    requires Stands(glob, i, ItemText(item))
    ensures var j := i + |LetterText(Start(item))|;
            && Stands(glob, i, LetterText(Start(item))) && |LetterText(Start(item))| >= 1
            && if item.One? then i + |ItemText(item)| == j
               else
                 && j < |glob| && glob[j] == '-' && Stands(glob, j + 1, LetterText(item.high))
                 && |LetterText(item.high)| >= 1 && i + |ItemText(item)| == j + 1 + |LetterText(item.high)|
  {
    if item.Span? {
      var j := i + |LetterText(item.low)|;
      StandsParts(glob, i, LetterText(item.low), "-" + LetterText(item.high));
      StandsParts(glob, j, "-", LetterText(item.high));
      StandsAt(glob, j, "-", 0);
    }
  }

  lemma BodyParts(glob: string, i: nat, items: seq<Item>)
    requires items != [] && Stands(glob, i, BodyText(items))
    ensures var next := i + |ItemText(items[0])|;
            && Stands(glob, i, ItemText(items[0])) && Stands(glob, next, BodyText(items[1..]))
            && i + |BodyText(items)| == next + |BodyText(items[1..])|
  {
    hide ItemText, Stands;
    StandsParts(glob, i, ItemText(items[0]), BodyText(items[1..]));
  }

  // ----- the end of a class -----

  lemma ClosingLetter(glob: string, i: nat, l: Letter)
    requires Stands(glob, i, LetterText(l)) && Writable(l)
    ensures Closing(glob, i) == Closing(glob, i + |LetterText(l)|)
  {
    LetterStands(glob, i, l);
    hide Stands;
  }

  // Behind the first letter of an item.
  lemma ClosingRest(glob: string, i: nat, item: Item)
    requires Stands(glob, i, ItemText(item)) && (item.Span? ==> Writable(item.high))
    ensures Closing(glob, i + |LetterText(Start(item))|) == Closing(glob, i + |ItemText(item)|)
  {
    hide Stands, ItemText, LetterText, Writable;
    ItemParts(glob, i, item);
    if item.Span? { ClosingLetter(glob, i + |LetterText(item.low)| + 1, item.high); }
  }

  lemma ClosingItem(glob: string, i: nat, item: Item)
    requires Stands(glob, i, ItemText(item)) && Writable(Start(item)) && (item.Span? ==> Writable(item.high))
    ensures Closing(glob, i) == Closing(glob, i + |ItemText(item)|)
  {
    hide Stands, ItemText, LetterText, Writable, Closing, Start;
    ItemParts(glob, i, item);
    ClosingLetter(glob, i, Start(item));
    ClosingRest(glob, i, item);
  }

  lemma ClosingHere(glob: string, i: nat)
    requires Stands(glob, i, "]")
    ensures Closing(glob, i) == Some(i)
  {
    StandsAt(glob, i, "]", 0);
  }

  lemma {:induction false} ClosingBody(glob: string, i: nat, items: seq<Item>, afterOne: bool)
    requires Stands(glob, i, BodyText(items)) && Stands(glob, i + |BodyText(items)|, "]")
    requires WellWritten(items, false, afterOne)
    ensures Closing(glob, i) == Some(i + |BodyText(items)|)
    decreases |items|
  {
    hide Closing, Stands, Writable, Bare, ItemText;
    if items == [] {
      ClosingHere(glob, i);
    } else {
      BodyParts(glob, i, items);
      hide BodyText;
      ClosingItem(glob, i, items[0]);
      ClosingBody(glob, i + |ItemText(items[0])|, items[1..], items[0].One?);
    }
  }

  // ----- its members -----

  lemma MemberRead(glob: string, i: nat, close: nat, item: Item)
    requires Stands(glob, i, ItemText(item)) && i + |ItemText(item)| <= close < |glob|
    requires !Bare(Start(item), '\\') && (item.Span? ==> Writable(item.high))
    requires item.One? ==> i + |ItemText(item)| + 1 >= close || glob[i + |ItemText(item)|] != '-'
    ensures Member(glob, i, close) == (RangeOf(item), i + |ItemText(item)|)
  {
    hide Stands, ItemText;
    ItemParts(glob, i, item);
    LetterStands(glob, i, Start(item));
    if item.Span? { LetterStands(glob, i + |LetterText(item.low)| + 1, item.high); }
  }

  lemma {:induction false} MembersRead(glob: string, i: nat, close: nat, items: seq<Item>, first: bool, afterOne: bool)
    requires Stands(glob, i, BodyText(items)) && close == i + |BodyText(items)| < |glob|
    requires WellWritten(items, first, afterOne)
    ensures Members(glob, i, close) == Ranges(items)
    decreases |items|
  {
    hide Member, Stands, Writable, ItemText, RangeOf;
    if items != [] {
      var next := i + |ItemText(items[0])|;
      BodyParts(glob, i, items);
      if |items| > 1 { NextStarts(glob, next, items[1..]); }
      hide BodyText;
      StartWritable(items[0], first);
      MemberRead(glob, i, close, items[0]);
      MembersRead(glob, next, close, items[1..], false, items[0].One?);
    }
  }

  lemma StartWritable(item: Item, first: bool)
    requires Writable(Start(item)) || (first && Bare(Start(item), ']'))
    ensures !Bare(Start(item), '\\')
  {
  }

  // The character with which the next item starts.
  lemma NextStarts(glob: string, i: nat, items: seq<Item>)
    requires items != [] && Stands(glob, i, BodyText(items))
    ensures i < |glob| && (glob[i] == '-' <==> Bare(Start(items[0]), '-'))
    ensures Bare(Start(items[0]), '-') && |items| == 1 && items[0].One? ==> |BodyText(items)| == 1
  {
    hide Stands;
    BodyParts(glob, i, items);
    ItemParts(glob, i, items[0]);
    LetterStands(glob, i, Start(items[0]));
  }

  lemma {:induction false} CoveredRanges(items: seq<Item>, c: char)
    ensures InRanges(Ranges(items), c) <==> exists i :: 0 <= i < |items| && Covers(items[i], c)
    decreases |items|
  {
    if items == [] {
      NoRanges(c);
    } else {
      var rest := items[1..];
      CoveredRanges(rest, c);
      RangesCons(RangeOf(items[0]), Ranges(rest), c);
      assert forall i | 0 <= i < |rest| :: rest[i] == items[i + 1];
      if i :| 0 <= i < |items| && Covers(items[i], c) {
        if i > 0 { assert Covers(rest[i - 1], c); }
      }
    }
  }

  /**
    A class reads back as it was written: any members, escaped where needed, behind "!" or "^" or not,
    with anything before and after it.  Its end is found, and a character is in it exactly if some
    member covers it, or exactly if none does.
   */
  lemma ClassRoundTrip(before: string, mark: string, items: seq<Item>, after: string, c: char)
    requires WellClassed(mark, items)
    ensures var glob, open, end := before + ClassText(mark, items) + after, |before|,
      |before| + |ClassText(mark, items)|;
            && ClassEnd(glob, open) == Some(end)
            && (Negated(glob, open) <==> mark != "")
            && ((InRanges(Members(glob, FirstMember(glob, open), end - 1), c) != Negated(glob, open)) <==>
                 ((exists i :: 0 <= i < |items| && Covers(items[i], c)) != (mark != "")))
  {
    hide Stands, ClassText, ClassEnd, Members, Negated, FirstMember, InRanges, Covers;
    InTheMiddle(before, ClassText(mark, items), after);
    ClassRead(before + ClassText(mark, items) + after, |before|, mark, items);
    CoveredRanges(items, c);
  }

  lemma InTheMiddle(before: string, x: string, after: string)
    ensures Stands(before + x + after, |before|, x)
  {
    assert (before + x + after)[|before|..|before| + |x|] == x;
  }

  lemma ClassRead(glob: string, open: nat, mark: string, items: seq<Item>)
    requires Stands(glob, open, ClassText(mark, items)) && WellClassed(mark, items)
    ensures ClassEnd(glob, open) == Some(open + |ClassText(mark, items)|) && (Negated(glob, open) <==> mark != "")
    ensures Members(glob, FirstMember(glob, open), open + |ClassText(mark, items)| - 1) == Ranges(items)
  {
    hide Members, Closing, Stands, BodyText, WellWritten;
    var body, first := BodyText(items), open + 1 + |mark|;
    StandsParts(glob, open, "[", mark + (body + "]"));
    StandsParts(glob, open + 1, mark, body + "]");
    if mark != "" { StandsAt(glob, open + 1, mark, 0); }
    StandsParts(glob, first, body, "]");
    StandsAt(glob, first + |body|, "]", 0);
    BodyCloses(glob, first, items);
    MembersRead(glob, first, first + |body|, items, true, false);
  }

  // The ']' behind the body is the first that can end the class; one in first place cannot.
  lemma BodyCloses(glob: string, first: nat, items: seq<Item>)
    requires items != [] && WellWritten(items, true, false)
    requires Stands(glob, first, BodyText(items)) && Stands(glob, first + |BodyText(items)|, "]")
    ensures FirstRead(glob, first, Start(items[0]))
    ensures Closing(glob, if glob[first] == ']' then first + 1 else first) == Some(first + |BodyText(items)|)
  {
    hide Closing, Stands, ItemText, Writable;
    var item := items[0];
    BodyParts(glob, first, items);
    hide BodyText;
    ClosingBody(glob, first + |ItemText(item)|, items[1..], item.One?);
    hide WellWritten;
    ItemParts(glob, first, item);
    LetterStands(glob, first, Start(item));
    ClosingRest(glob, first, item);
    if Writable(Start(item)) {
      ClosingLetter(glob, first, Start(item));
      WritableRead(glob, first, Start(item));
    }
  }

  ghost predicate FirstRead(glob: string, first: nat, l: Letter) {
    first < |glob| && if l.escaped then glob[first] == '\\' else glob[first] == l.c
  }

  lemma WritableRead(glob: string, first: nat, l: Letter)
    requires Writable(l) && FirstRead(glob, first, l)
    ensures glob[first] != ']'
  {
  }

  // ----- whole globs -----

  datatype Token =
    | Char(letter: Letter)
    | Any                                        // ?
    | Class(mark: string, items: seq<Item>)      // [...]
    | Stars(n: nat)                              // a star, or several that do not fill a segment
    | Folders(n: nat)                            // **/
    | Rest(n: nat)                               // a final **

  function StarsText(n: nat): string { seq(n, _ => '*') }

  function TokenText(t: Token): string {
    match t
    case Char(l) => LetterText(l)
    case Any => "?"
    case Class(mark, items) => ClassText(mark, items)
    case Stars(n) => StarsText(n)
    case Folders(n) => StarsText(n) + "/"
    case Rest(n) => StarsText(n)
  }

  function GlobText(tokens: seq<Token>): string {
    if tokens == [] then "" else TokenText(tokens[0]) + GlobText(tokens[1..])
  }

  predicate Starry(t: Token) { t.Stars? || t.Folders? || t.Rest? }

  // The next segment starts behind the token.
  predicate EndsSegment(t: Token) { t.Folders? || (t.Char? && t.letter.c == '/') }

  predicate FillsSegment(rest: seq<Token>) { rest == [] || (rest[0].Char? && Bare(rest[0].letter, '/')) }

  // `opening`: a segment starts here.
  predicate WellGlobbed(tokens: seq<Token>, opening: bool) {
    tokens != [] ==>
      && WellGlobbed(tokens[1..], EndsSegment(tokens[0]))
      && match tokens[0]
         case Char(l) => l.escaped || (l.c != '*' && l.c != '?' && l.c != '[' && l.c != '\\')
         case Any => true
         case Class(mark, items) => WellClassed(mark, items)
         case Stars(n) =>
           && n >= 1 && (|tokens| > 1 ==> !Starry(tokens[1]))
           && (n >= 2 && opening ==> !FillsSegment(tokens[1..]))
         case Folders(n) => n >= 2 && opening
         case Rest(n) => n >= 2 && opening && |tokens| == 1
  }

  // What one token takes of a text.
  predicate Takes(t: Token, part: string) {
    match t
    case Char(l) => part == [l.c]
    case Any => |part| == 1 && part[0] != '/'
    case Class(mark, items) =>
      |part| == 1 && part[0] != '/' && ((exists i :: 0 <= i < |items| && Covers(items[i], part[0])) != (mark != ""))
    case Stars(_) => '/' !in part
    case Folders(_) => part == "" || part[|part| - 1] == '/'
    case Rest(_) => true
  }

  function Concat(parts: seq<string>): string {
    if parts == [] then "" else parts[0] + Concat(parts[1..])
  }

  // The text falls into parts, of which each token takes one.
  ghost predicate Split(tokens: seq<Token>, parts: seq<string>, text: string) {
    |parts| == |tokens| && Concat(parts) == text && forall i | 0 <= i < |parts| :: Takes(tokens[i], parts[i])
  }

  function PieceOf(t: Token): Piece {
    match t
    case Char(l) => Exact(l.c)
    case Any => AnyOne
    case Class(mark, items) => OneOf(mark != "", Ranges(items))
    case Stars(_) => Run
    case Folders(_) => Dirs
    case Rest(_) => Everything
  }

  function PiecesOf(tokens: seq<Token>): seq<Piece> {
    if tokens == [] then [] else [PieceOf(tokens[0])] + PiecesOf(tokens[1..])
  }

  lemma StarsStand(glob: string, i: nat, n: nat)
    requires Stands(glob, i, StarsText(n)) && (i + n < |glob| ==> glob[i + n] != '*')
    ensures i + n <= |glob| && StarsEnd(glob, i) == i + n && (n > 0 ==> glob[i] == '*')
  {
    assert |StarsText(n)| == n;
    forall k | i <= k < i + n ensures glob[k] == '*' { StandsAt(glob, i, StarsText(n), k - i); }
  }

  // How the text of tokens starts.
  lemma GlobStarts(glob: string, i: nat, tokens: seq<Token>, opening: bool)
    requires Stands(glob, i, GlobText(tokens)) && WellGlobbed(tokens, opening) && i + |GlobText(tokens)| == |glob|
    ensures tokens == [] ==> i == |glob|
    ensures tokens != [] ==>
      i < |glob| && (glob[i] == '*' <==> Starry(tokens[0])) && (glob[i] == '/' <==> FillsSegment(tokens))
  {
    hide Stands;
    if tokens != [] {
      StandsParts(glob, i, TokenText(tokens[0]), GlobText(tokens[1..]));
      match tokens[0]
      case Char(l) => LetterStands(glob, i, l);
      case Any => StandsAt(glob, i, "?", 0);
      case Class(mark, items) => StandsAt(glob, i, ClassText(mark, items), 0);
      case Stars(n) => StandsAt(glob, i, StarsText(n), 0);
      case Folders(n) => StandsAt(glob, i, StarsText(n) + "/", 0);
      case Rest(n) => StandsAt(glob, i, StarsText(n), 0);
    }
  }

  // The raw character before a segment is a slash.
  ghost predicate Fresh(glob: string, i: nat)
    requires i <= |glob|
  {
    i == 0 || glob[i - 1] == '/'
  }

  lemma TokenEnds(glob: string, i: nat, t: Token)
    requires Stands(glob, i, TokenText(t)) && TokenText(t) != ""
    ensures Fresh(glob, i + |TokenText(t)|) <==> EndsSegment(t)
  {
    hide Stands;
    StandsAt(glob, i, TokenText(t), |TokenText(t)| - 1);
    if t.Class? { LastOfClass(t.mark, t.items); }
  }

  lemma LastOfClass(mark: string, items: seq<Item>)
    ensures var x := ClassText(mark, items); x != "" && x[|x| - 1] == ']'
  {
  }

  // Pieces are read token by token.
  lemma PieceRead(glob: string, i: nat, tokens: seq<Token>)
    requires i <= |glob| && Stands(glob, i, GlobText(tokens)) && i + |GlobText(tokens)| == |glob|
    requires tokens != [] && WellGlobbed(tokens, Fresh(glob, i))
    ensures var next := i + |TokenText(tokens[0])|;
            next <= |glob| && Pieces(glob, i) == if tokens[0].Rest? then [Everything]
                                                 else [PieceOf(tokens[0])] + Pieces(glob, next)
  {
    hide Stands, ClassText, LetterText, Ranges, WellClassed, Pieces;
    GlobParts(glob, i, tokens);
    hide GlobText;
    match tokens[0]
    case Char(l) => CharRead(glob, i, l);
    case Any =>
      StandsAt(glob, i, "?", 0);
      AnyRead(glob, i);
    case Class(mark, items) => ClassPiece(glob, i, mark, items);
    case _ => StarsRead(glob, i, tokens);
  }

  lemma CharRead(glob: string, i: nat, l: Letter)
    requires Stands(glob, i, LetterText(l)) && i + |LetterText(l)| <= |glob|
    requires l.escaped || (l.c != '*' && l.c != '?' && l.c != '[' && l.c != '\\')
    ensures Pieces(glob, i) == [Exact(l.c)] + Pieces(glob, i + |LetterText(l)|)
  {
    LetterStands(glob, i, l);
    hide Stands;
    assert |LetterText(l)| == if l.escaped then 2 else 1;
  }

  lemma AnyRead(glob: string, i: nat)
    requires i < |glob| && glob[i] == '?'
    ensures Pieces(glob, i) == [AnyOne] + Pieces(glob, i + 1)
  {
  }

  lemma ClassPiece(glob: string, i: nat, mark: string, items: seq<Item>)
    requires Stands(glob, i, ClassText(mark, items)) && WellClassed(mark, items)
      && i + |ClassText(mark, items)| <= |glob|
    ensures Pieces(glob, i) == [OneOf(mark != "", Ranges(items))] + Pieces(glob, i + |ClassText(mark, items)|)
  {
    hide Stands, ClassText, WellClassed, ClassEnd, Members, FirstMember, Negated, Ranges, Pieces;
    ClassOpens(glob, i, mark, items);
    ClassRead(glob, i, mark, items);
    PiecesAtClass(glob, i);
  }

  lemma ClassOpens(glob: string, i: nat, mark: string, items: seq<Item>)
    requires Stands(glob, i, ClassText(mark, items))
    ensures i < |glob| && glob[i] == '['
  {
    StandsAt(glob, i, ClassText(mark, items), 0);
  }

  lemma PiecesAtClass(glob: string, i: nat)
    requires i < |glob| && glob[i] == '[' && ClassEnd(glob, i).Some?
    ensures var end := ClassEnd(glob, i).value;
            Pieces(glob, i) == [OneOf(Negated(glob, i), Members(glob, FirstMember(glob, i), end - 1))] + Pieces(glob,
              end)
  {
    hide ClassEnd, Members, FirstMember, Negated;
  }

  lemma StarsRead(glob: string, i: nat, tokens: seq<Token>)
    requires i <= |glob| && Stands(glob, i, GlobText(tokens)) && i + |GlobText(tokens)| == |glob|
    requires tokens != [] && Starry(tokens[0]) && WellGlobbed(tokens, Fresh(glob, i))
    ensures var next := i + |TokenText(tokens[0])|;
            next <= |glob| && Pieces(glob, i) == if tokens[0].Rest? then [Everything]
                                                 else [PieceOf(tokens[0])] + Pieces(glob, next)
  {
    hide Stands, Pieces, StarsEnd, WellGlobbed, WholeSegment;
    StarsPart(glob, i, tokens);
    PiecesAtStars(glob, i);
  }

  lemma PiecesAtStars(glob: string, i: nat)
    requires i < |glob| && glob[i] == '*'
    ensures var j := StarsEnd(glob, i);
            Pieces(glob, i) == if !WholeSegment(glob, i, j) then [Run] + Pieces(glob, j)
                               else if j == |glob| then [Everything]
                               else [Dirs] + Pieces(glob, j + 1)
  {
    assert StarsEnd(glob, i) == StarsEnd(glob, i + 1);
  }

  // Where the stars end, and whether they fill a segment.
  lemma StarsPart(glob: string, i: nat, tokens: seq<Token>)
    requires i <= |glob| && Stands(glob, i, GlobText(tokens)) && i + |GlobText(tokens)| == |glob|
    requires tokens != [] && Starry(tokens[0]) && WellGlobbed(tokens, Fresh(glob, i))
    ensures var t, n := tokens[0], tokens[0].n;
            && n >= 1 && i < |glob| && glob[i] == '*' && i + |TokenText(t)| <= |glob|
            && |TokenText(t)| == (if t.Folders? then n + 1 else n) && StarsEnd(glob, i) == i + n
            && (t.Stars? ==> !WholeSegment(glob, i, i + n))
            && (t.Folders? ==> WholeSegment(glob, i, i + n) && i + n < |glob|)
            && (t.Rest? ==> WholeSegment(glob, i, i + n) && i + n == |glob|)
  {
    hide Stands, StarsEnd, StarsText, GlobText, TokenText;
    var t, n, rest := tokens[0], tokens[0].n, tokens[1..];
    TokenOfStars(t);
    GlobParts(glob, i, tokens);
    StarsFollow(tokens, Fresh(glob, i));
    hide WellGlobbed;
    if t.Folders? {
      StandsParts(glob, i, StarsText(n), "/");
      StandsAt(glob, i + n, "/", 0);
    } else {
      GlobStarts(glob, i + n, rest, EndsSegment(t));
    }
    hide FillsSegment, Starry;
    StarsStand(glob, i, n);
  }

  lemma GlobParts(glob: string, i: nat, tokens: seq<Token>)
    requires tokens != [] && Stands(glob, i, GlobText(tokens))
    ensures Stands(glob, i, TokenText(tokens[0])) && Stands(glob, i + |TokenText(tokens[0])|, GlobText(tokens[1..]))
    ensures |GlobText(tokens)| == |TokenText(tokens[0])| + |GlobText(tokens[1..])|
  {
    hide Stands, TokenText;
    StandsParts(glob, i, TokenText(tokens[0]), GlobText(tokens[1..]));
  }

  lemma TokenOfStars(t: Token)
    requires Starry(t)
    ensures |StarsText(t.n)| == t.n && forall k | 0 <= k < t.n :: StarsText(t.n)[k] == '*'
    ensures TokenText(t) == if t.Folders? then StarsText(t.n) + "/" else StarsText(t.n)
  {
  }

  lemma StarsFollow(tokens: seq<Token>, opening: bool)
    requires tokens != [] && Starry(tokens[0]) && WellGlobbed(tokens, opening)
    ensures tokens[0].n >= 1 && WellGlobbed(tokens[1..], EndsSegment(tokens[0]))
    ensures tokens[0].Stars? ==>
      (tokens[1..] != [] ==> !Starry(tokens[1..][0])) && (tokens[0].n >= 2 && opening ==> !FillsSegment(tokens[1..]))
    ensures !tokens[0].Stars? ==> tokens[0].n >= 2 && opening
    ensures tokens[0].Rest? ==> tokens[1..] == []
  {
  }

  lemma {:induction false} PiecesRead(glob: string, i: nat, tokens: seq<Token>)
    requires i <= |glob| && Stands(glob, i, GlobText(tokens)) && i + |GlobText(tokens)| == |glob|
    requires WellGlobbed(tokens, Fresh(glob, i))
    ensures Pieces(glob, i) == PiecesOf(tokens)
    decreases |tokens|
  {
    hide Stands, TokenText;
    if tokens != [] {
      PieceRead(glob, i, tokens);
      StandsParts(glob, i, TokenText(tokens[0]), GlobText(tokens[1..]));
      TokenLength(tokens);
      TokenEnds(glob, i, tokens[0]);
      hide Pieces;
      if !tokens[0].Rest? { PiecesRead(glob, i + |TokenText(tokens[0])|, tokens[1..]); }
    }
  }

  lemma TokenLength(tokens: seq<Token>)
    requires tokens != [] && exists opening :: WellGlobbed(tokens, opening)
    ensures TokenText(tokens[0]) != ""
  {
  }

  // ----- and what they match -----

  lemma TakesOne(t: Token, c: char)
    requires !Starry(t)
    ensures Takes(t, [c]) <==> MatchesOne(PieceOf(t), c)
  {
    if t.Class? { CoveredRanges(t.items, c); }
  }

  lemma SplitHead(tokens: seq<Token>, parts: seq<string>, text: string)
    requires tokens != []
    ensures Split(tokens, parts, text) <==>
      && parts != [] && Takes(tokens[0], parts[0]) && |parts[0]| <= |text| && text[..|parts[0]|] == parts[0]
      && Split(tokens[1..], parts[1..], text[|parts[0]|..])
  {
    hide Takes;
    if parts != [] {
      assert forall i | 1 <= i < |parts| && |parts| == |tokens| ::
        tokens[1..][i - 1] == tokens[i] && parts[1..][i - 1] == parts[i];
      if Split(tokens, parts, text) {
        assert text == parts[0] + Concat(parts[1..]);
        assert text[|parts[0]|..] == Concat(parts[1..]);
      }
    }
  }

  // A text is matched by the first token's part and the rest.
  ghost predicate Splits(tokens: seq<Token>, text: string) { exists parts :: Split(tokens, parts, text) }

  lemma SplitsHead(tokens: seq<Token>, text: string)
    requires tokens != []
    ensures Splits(tokens, text) <==> exists k ::
      0 <= k <= |text| && Takes(tokens[0], text[..k]) && Splits(tokens[1..], text[k..])
  {
    hide Split, Takes;
    if parts :| Split(tokens, parts, text) {
      SplitHead(tokens, parts, text);
      assert Takes(tokens[0], text[..|parts[0]|]) && Splits(tokens[1..], text[|parts[0]|..]);
    }
    if k :| 0 <= k <= |text| && Takes(tokens[0], text[..k]) && Splits(tokens[1..], text[k..]) {
      var rest :| Split(tokens[1..], rest, text[k..]);
      var parts := [text[..k]] + rest;
      assert parts[1..] == rest;
      SplitHead(tokens, parts, text);
    }
  }

  lemma NothingSplits(text: string)
    ensures Splits([], text) <==> text == ""
  {
    if text == "" { assert Split([], [], ""); }
  }

  lemma RestIsWell(tokens: seq<Token>, opening: bool)
    requires tokens != [] && WellGlobbed(tokens, opening)
    ensures WellGlobbed(tokens[1..], EndsSegment(tokens[0])) && (tokens[0].Rest? ==> tokens[1..] == [])
  {
  }

  // The first part has k characters.
  ghost predicate TakesSome(t: Token, ps: seq<Piece>, text: string, k: int) {
    0 <= k <= |text| && Takes(t, text[..k]) && Matches(ps, text[k..])
  }

  lemma StarMatches(t: Token, ps: seq<Piece>, text: string)
    requires t.Stars? || t.Folders?
    ensures Matches([PieceOf(t)] + ps, text) <==> exists k :: TakesSome(t, ps, text, k)
  {
    var all := [PieceOf(t)] + ps;
    assert all[1..] == ps;
    if Matches(all, text) {
      var k :| 0 <= k <= |text| && (if t.Stars? then '/' !in text[..k] else k == 0 || text[k - 1] == '/')
        && Matches(ps, text[k..]);
      assert TakesSome(t, ps, text, k);
    }
    if k :| TakesSome(t, ps, text, k) { assert Matches(ps, text[k..]); }
  }

  lemma OneMatches(t: Token, ps: seq<Piece>, text: string)
    requires !Starry(t)
    ensures Matches([PieceOf(t)] + ps, text) <==> exists k :: TakesSome(t, ps, text, k)
  {
    var all := [PieceOf(t)] + ps;
    assert all[1..] == ps;
    if text != "" {
      TakesOne(t, text[0]);
      assert text[..1] == [text[0]];
      if Matches(all, text) { assert TakesSome(t, ps, text, 1); }
    }
    if k :| TakesSome(t, ps, text, k) { assert |text[..k]| == 1; }
  }

  lemma AllMatches(ps: seq<Piece>, text: string)
    ensures Matches([Everything] + ps, text)
  {
  }

  lemma {:induction false} TokensMatch(tokens: seq<Token>, text: string, opening: bool)
    requires WellGlobbed(tokens, opening)
    ensures Matches(PiecesOf(tokens), text) <==> Splits(tokens, text)
    decreases |tokens|
  {
    if tokens == [] {
      NothingSplits(text);
    } else {
      hide Splits, WellGlobbed, Matches, Takes, PieceOf;
      var t, rest := tokens[0], tokens[1..];
      RestIsWell(tokens, opening);
      forall k | 0 <= k <= |text| ensures Matches(PiecesOf(rest), text[k..]) <==> Splits(rest, text[k..]) {
        TokensMatch(rest, text[k..], EndsSegment(t));
      }
      SplitsHead(tokens, text);
      if t.Rest? {
        RestMatches(t, text);
      } else if Starry(t) {
        StarMatches(t, PiecesOf(rest), text);
      } else {
        OneMatches(t, PiecesOf(rest), text);
      }
      SameHead(t, rest, text);
    }
  }

  lemma RestMatches(t: Token, text: string)
    requires t.Rest?
    ensures Matches([PieceOf(t)] + PiecesOf([]), text) && TakesSome(t, PiecesOf([]), text, |text|)
  {
    AllMatches(PiecesOf([]), text);
    assert text[|text|..] == "";
  }

  lemma SameHead(t: Token, rest: seq<Token>, text: string)
    requires forall k | 0 <= k <= |text| :: Matches(PiecesOf(rest), text[k..]) <==> Splits(rest, text[k..])
    ensures (exists k :: TakesSome(t, PiecesOf(rest), text, k)) <==>
      exists k :: 0 <= k <= |text| && Takes(t, text[..k]) && Splits(rest, text[k..])
  {
    hide Splits, Matches, Takes, PiecesOf;
    if k :| TakesSome(t, PiecesOf(rest), text, k) { assert Takes(t, text[..k]) && Splits(rest, text[k..]); }
    if k :| 0 <= k <= |text| && Takes(t, text[..k]) && Splits(rest, text[k..]) {
      assert TakesSome(t, PiecesOf(rest), text, k);
    }
  }

  /**
    What a glob matches: written from characters, "?", classes, stars and whole-segment double stars, it
    matches exactly the texts that fall into one part for each of them.
   */
  lemma GlobMeaning(tokens: seq<Token>, text: string)
    requires WellGlobbed(tokens, true)
    ensures GlobMatches(GlobText(tokens), text) <==> exists parts :: Split(tokens, parts, text)
  {
    hide Split, WellGlobbed, Pieces, Matches;
    assert Stands(GlobText(tokens), 0, GlobText(tokens));
    PiecesRead(GlobText(tokens), 0, tokens);
    TokensMatch(tokens, text, true);
  }
}
