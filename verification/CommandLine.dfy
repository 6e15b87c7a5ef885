/** The laws of tokenize on the bytes of a line, which need not be well-formed UTF-8. */
module CommandLine {
  import opened Binary
  import opened Options
  import opened Utf8
  import opened Tokenizer

  // ---------- runes written and read back

  lemma {:induction false} WrittenAppend(a: Text, b: Text)
    ensures Written(a + b) == Written(a) + Written(b)
    decreases |b|
  {
    hide Encode;
    if b == [] {
      assert a + b == a;
      assert Written(a) + [] == Written(a);
    } else {
      var front, last := b[..|b| - 1], b[|b| - 1];
      assert (a + b)[..|a + b| - 1] == a + front;
      WrittenAppend(a, front);
      assert Written(a) + Written(front) + Encode(last) == Written(a) + (Written(front) + Encode(last));
    }
  }

  lemma WrittenOne(r: int)
    ensures Written([r]) == Encode(r)
  {
    assert [r][..0] == [];
  }

  /** Scalar runes written as bytes decode to themselves. */
  lemma {:induction false} WrittenReadsBack(t: Text)
    requires AllScalar(t)
    ensures Runes(Written(t)) == t
    decreases |t|
  {
    hide Encode, Runes, WellFormed, Decode, Width, Written;
    if t == [] {
      WrittenIfEmpty(t);
      assert Runes([]) == [];
    } else {
      var r, rest := t[0], t[1..];
      assert t == [r] + rest;
      WrittenAppend([r], rest);
      WrittenOne(r);
      WrittenReadsBack(rest);
      EncodedReadsBack(r, Written(rest));
      EncodeNotEmpty(r);
      var s := Encode(r) + Written(rest);
      RunesOfFirst(s);
      assert s[|Encode(r)|..] == Written(rest);
    }
  }

  lemma EncodeNotEmpty(r: int)
    ensures Encode(r) != []
  {}

  /** s is well-formed UTF-8: a string that survives decoding and encoding. */
  predicate ValidUtf8(s: Bytes)
  {
    Written(Runes(s)) == s
  }

  // ---------- what tokens can be

  predicate ScalarState(st: State)
  {
    AllScalar(st.cur) && forall i | 0 <= i < |st.tokens| :: AllScalar(st.tokens[i])
  }

  lemma {:induction false} ScanScalar(line: Text)
    requires AllScalar(line)
    ensures ScalarState(Scan(START, line))
  {
    if line != [] {
      ScanScalar(line[..|line| - 1]);
    }
  }

  /** Every token is well-formed UTF-8: stray bytes of the line have become U+FFFD. */
  lemma TokensAreValid(line: Bytes)
    requires Tokenized(line).Some?
    ensures forall i | 0 <= i < |Tokenized(line).value| :: ValidUtf8(Tokenized(line).value[i])
  {
    RunesAreScalar(line);
    assert forall i | 0 <= i < |Runes(line)| :: Runes(line)[i] in Runes(line);
    ScanScalar(Runes(line));
    hide Runes, Scan, Written, Scalar;
    var ts := Tokens(Runes(line)).value;
    forall i | 0 <= i < |ts| ensures ValidUtf8(AllWritten(ts)[i]) {
      WrittenReadsBack(ts[i]);
    }
  }

  // ---------- lines for given tokens

  lemma {:induction false} PiecesScalar(s: Text)
    requires AllScalar(s)
    ensures AllScalar(PiecesText(PiecesOf(s)))
  {
    hide PiecesText, PieceText, PiecesOf;
    if s == [] {
      EmptyPieces();
    } else {
      var front, r := s[..|s| - 1], s[|s| - 1];
      PiecesScalar(front);
      OneMorePiece(s);
      var piece := PieceFor(r);
      assert AllScalar(PieceText(piece)) by {
        PieceScalar(r);
      }
      hide AllScalar;
      PiecesMore(PiecesOf(front), piece);
      AllScalarAppend(PiecesText(PiecesOf(front)), PieceText(piece));
    }
  }

  function PieceFor(r: int): Piece
  {
    Quoted(if r == DOUBLE_QUOTE then SINGLE_QUOTE else DOUBLE_QUOTE, [r])
  }

  lemma PieceScalar(r: int)
    requires Scalar(r)
    ensures AllScalar(PieceText(PieceFor(r)))
  {}

  lemma OneMorePiece(s: Text)
    requires s != []
    ensures PiecesOf(s) == PiecesOf(s[..|s| - 1]) + [PieceFor(s[|s| - 1])]
  {}

  lemma EmptyPieces()
    ensures AllScalar(PiecesText(PiecesOf([])))
  {
    NoPieces(START);
    PiecesMore([], Quoted(DOUBLE_QUOTE, []));
    assert [] + [Quoted(DOUBLE_QUOTE, [])] == PiecesOf([]);
  }

  lemma {:induction false} LineScalar(ss: seq<Text>)
    requires forall i | 0 <= i < |ss| :: AllScalar(ss[i])
    ensures AllScalar(LineText(Arguments(ss)))
    decreases |ss|
  {
    hide AllScalar, LineText, PiecesText, PiecesOf, Arguments;
    if ss == [] {
      NoLine();
    } else {
      var front, last := ss[..|ss| - 1], ss[|ss| - 1];
      LineScalar(front);
      PiecesScalar(last);
      Blank();
      ArgumentsMore(front, last);
      assert ss == front + [last];
      AllScalarAppend(LineText(Arguments(front)), [SPACE]);
      AllScalarAppend(LineText(Arguments(front)) + [SPACE], PiecesText(PiecesOf(last)));
    }
  }

  lemma NoLine()
    ensures AllScalar(LineText(Arguments([])))
  {}

  lemma Blank()
    ensures AllScalar([SPACE])
  {}

  lemma ArgumentsMore(ss: seq<Text>, s: Text)
    ensures LineText(Arguments(ss + [s])) == LineText(Arguments(ss)) + [SPACE] + PiecesText(PiecesOf(s))
  {
    hide PiecesText, PiecesOf;
    var args := Arguments(ss + [s]);
    assert args[..|args| - 1] == Arguments(ss);
  }

  lemma AllScalarAppend(a: Text, b: Text)
    requires AllScalar(a) && AllScalar(b)
    ensures AllScalar(a + b)
  {}

  function AllRunes(ss: seq<Bytes>): (r: seq<Text>)
    ensures |r| == |ss|
  {
    seq(|ss|, i requires 0 <= i < |ss| => Runes(ss[i]))
  }

  /** A line for a list of strings: each rune quoted by the quote it is not. */
  function LineFor(ss: seq<Bytes>): Bytes
  {
    Written(LineText(Arguments(AllRunes(ss))))
  }

  lemma ValidListRenders(ss: seq<Bytes>)
    requires forall i | 0 <= i < |ss| :: ValidUtf8(ss[i])
    ensures Tokenized(LineFor(ss)) == Some(ss)
  {
    var ts := AllRunes(ss);
    forall i | 0 <= i < |ts| ensures AllScalar(ts[i]) {
      RunesAreScalar(ss[i]);
      assert forall j | 0 <= j < |ts[i]| :: ts[i][j] in Runes(ss[i]);
    }
    LineScalar(ts);
    hide LineText, Arguments, Runes, Written, Scalar;
    WrittenReadsBack(LineText(Arguments(ts)));
    EveryListRenders(ts);
    assert AllWritten(ts) == ss;
  }

  /**
   A list of strings is what tokenize makes of some line exactly when all of them are well-formed UTF-8,
   whatever blanks and quotes they hold.
   */
  lemma TokensOfSomeLineIff(ss: seq<Bytes>)
    ensures (exists line: Bytes :: Tokenized(line) == Some(ss)) <==> forall i | 0 <= i < |ss| :: ValidUtf8(ss[i])
  {
    hide Tokenized, ValidUtf8;
    if line: Bytes :| Tokenized(line) == Some(ss) {
      TokensAreValid(line);
    } else if forall i | 0 <= i < |ss| :: ValidUtf8(ss[i]) {
      ValidListRenders(ss);
    }
  }

  /** The string of the one byte 0xFF is no token of any line. */
  lemma NoLineGivesAStrayByte(line: Bytes)
    ensures Tokenized(line) != Some([[0xFF]])
  {
    assert Runes([0xFF]) == [REPLACEMENT] by {
      assert [0xFF as Byte][1..] == [];
    }
    WrittenOne(REPLACEMENT);
    assert !ValidUtf8([0xFF]);
    hide Runes, Tokens, ValidUtf8, Tokenized;
    if Tokenized(line).Some? {
      TokensAreValid(line);
      assert Tokenized(line).value != [] ==> ValidUtf8(Tokenized(line).value[0]);
    }
  }

  // ---------- two lines joined by a blank

  /** If a tokenizes, the line a + " " + b gives the tokens of a and then those of b, or fails as b does. */
  lemma LinesJoinedByBlank(a: Bytes, b: Bytes)
    requires Tokenized(a).Some?
    ensures Tokenized(a + [0x20] + b) ==
      if Tokenized(b).None? then None else Some(Tokenized(a).value + Tokenized(b).value)
  {
    hide Runes, Tokens, Written, AllWritten;
    BlankBetween(a, b);
    JoinedByBlank(Runes(a), Runes(b));
    if Tokens(Runes(b)).Some? {
      AllWrittenAppend(Tokens(Runes(a)).value, Tokens(Runes(b)).value);
    }
  }

  lemma {:induction false} BlankBetween(a: Bytes, b: Bytes)
    ensures Runes(a + [0x20] + b) == Runes(a) + [SPACE] + Runes(b)
  {
    hide Runes;
    var blank: Bytes := [0x20];
    assert a + blank + b == a + (blank + b);
    AsciiBoundary(a, blank + b);
    AsciiFirst(0x20, b);
    assert Runes(a) + ([SPACE] + Runes(b)) == Runes(a) + [SPACE] + Runes(b);
  }

  lemma AllWrittenAppend(x: seq<Text>, y: seq<Text>)
    ensures AllWritten(x + y) == AllWritten(x) + AllWritten(y)
  {
    hide Written;
  }

  // ---------- rendered lines

  /** A part of a word: in quotes any bytes but the quote, else any but quotes and blanks, well formed or not. */
  datatype Part = InQuotes(quote: Byte, body: Bytes) | Plain(body: Bytes)
  datatype Word = Word(gap: Bytes, parts: seq<Part>)

  predicate ValidPart(p: Part)
  {
    if p.InQuotes? then IsQuote(p.quote) && p.quote !in p.body
    else p.body != [] && forall i | 0 <= i < |p.body| :: !IsQuote(p.body[i]) && !IsBlank(p.body[i])
  }

  /** No two plain parts stand side by side: together they are one. */
  predicate ValidParts(ps: seq<Part>)
  {
    (forall i | 0 <= i < |ps| :: ValidPart(ps[i])) && forall i | 0 < i < |ps| :: ps[i - 1].InQuotes? || ps[i].InQuotes?
  }

  predicate ValidWord(w: Word)
  {
    (forall i | 0 <= i < |w.gap| :: IsBlank(w.gap[i])) && w.parts != [] && ValidParts(w.parts)
  }

  /** Every word but the first needs a blank before it. */
  predicate ValidWords(ws: seq<Word>)
  {
    (forall i | 0 <= i < |ws| :: ValidWord(ws[i])) && forall i | 1 <= i < |ws| :: ws[i].gap != []
  }

  function PartBytes(p: Part): Bytes
  {
    if p.InQuotes? then [p.quote] + p.body + [p.quote] else p.body
  }

  function PartsBytes(ps: seq<Part>): Bytes
  {
    if ps == [] then [] else PartsBytes(ps[..|ps| - 1]) + PartBytes(ps[|ps| - 1])
  }

  function LineBytes(ws: seq<Word>): Bytes
  {
    if ws == [] then []
    else LineBytes(ws[..|ws| - 1]) + (ws[|ws| - 1].gap + PartsBytes(ws[|ws| - 1].parts))
  }

  /** The bodies put together, stray bytes made U+FFFD. */
  function Body(ps: seq<Part>): Bytes
  {
    if ps == [] then [] else Body(ps[..|ps| - 1]) + Written(Runes(ps[|ps| - 1].body))
  }

  function Bodies(ws: seq<Word>): (r: seq<Bytes>)
    ensures |r| == |ws|
  {
    seq(|ws|, i requires 0 <= i < |ws| => Body(ws[i].parts))
  }

  /** The same as runes. */
  function ToPiece(p: Part): Piece
  {
    if p.InQuotes? then Quoted(p.quote, Runes(p.body)) else Bare(Runes(p.body))
  }

  function ToPieces(ps: seq<Part>): (r: seq<Piece>)
    ensures |r| == |ps|
  {
    seq(|ps|, i requires 0 <= i < |ps| => ToPiece(ps[i]))
  }

  function ToArguments(ws: seq<Word>): (r: seq<Argument>)
    ensures |r| == |ws|
  {
    seq(|ws|, i requires 0 <= i < |ws| => Argument(ws[i].gap, ToPieces(ws[i].parts)))
  }

  lemma QuotedRunes(p: Part)
    requires p.InQuotes? && ValidPart(p)
    ensures Runes(PartBytes(p)) == PieceText(ToPiece(p)) && ValidPiece(ToPiece(p))
  {
    var q: Bytes := [p.quote];
    assert p.quote < 0x80;
    NotInRunes(p.body, p.quote);
    hide Runes;
    assert q + p.body + q == q + (p.body + q);
    AsciiFirst(p.quote, p.body + q);
    AsciiBoundary(p.body, q);
    AsciiRunes(q);
  }

  lemma NotInRunes(s: Bytes, b: Byte)
    requires b < 0x80 && b !in s
    ensures b as int !in Runes(s)
  {
    hide Runes;
    if b as int in Runes(s) {
      var i :| 0 <= i < |Runes(s)| && Runes(s)[i] == b as int;
      AsciiRuneIsByte(s, i);
      assert false;
    }
  }

  lemma PlainRunes(p: Part)
    requires p.Plain? && ValidPart(p)
    ensures Runes(PartBytes(p)) == PieceText(ToPiece(p)) && ValidPiece(ToPiece(p))
  {
    hide Runes;
    var t := Runes(p.body);
    forall i | 0 <= i < |t| ensures !IsQuote(t[i]) && !IsBlank(t[i]) {
      if IsQuote(t[i]) || IsBlank(t[i]) {
        AsciiRuneIsByte(p.body, i);
        assert false;
      }
    }
  }

  /** A part in quotes has ASCII at both ends. */
  lemma PartEnds(p: Part)
    requires ValidPart(p)
    ensures PartBytes(p) != []
    ensures p.InQuotes? ==> PartBytes(p)[0] < 0x80 && PartBytes(p)[|PartBytes(p)| - 1] < 0x80
  {}

  lemma {:induction false} PartsRunes(ps: seq<Part>)
    requires ValidParts(ps)
    ensures Runes(PartsBytes(ps)) == PiecesText(ToPieces(ps))
    ensures forall i | 0 <= i < |ps| :: ValidPiece(ToPieces(ps)[i])
    ensures ps != [] && ps[|ps| - 1].InQuotes? ==>
      PartsBytes(ps) != [] && PartsBytes(ps)[|PartsBytes(ps)| - 1] < 0x80
    decreases |ps|
  {
    hide PartBytes, PieceText, ValidPiece, Runes, ToPiece;
    if ps == [] {
      assert Runes([]) == [] && PartsBytes([]) == [];
    } else {
      var front, last := ps[..|ps| - 1], ps[|ps| - 1];
      assert ValidParts(front);
      PartsRunes(front);
      assert ValidPart(last) && (front != [] ==> front[|front| - 1].InQuotes? || last.InQuotes?);
      hide ValidPart;
      PartEnds(last);
      if last.InQuotes? {
        QuotedRunes(last);
      } else {
        PlainRunes(last);
      }
      assert front == [] ==> PartsBytes(front) == [];
      CutBesideAscii(PartsBytes(front), PartBytes(last));
      assert ToPieces(ps)[..|ps| - 1] == ToPieces(front);
      forall i | 0 <= i < |ps| ensures ValidPiece(ToPieces(ps)[i]) {
        assert i < |front| ==> ToPieces(front)[i] == ToPieces(ps)[i];
      }
    }
  }

  lemma WordRunes(w: Word)
    requires ValidWord(w)
    ensures Runes(w.gap + PartsBytes(w.parts)) == w.gap + PiecesText(ToPieces(w.parts))
    ensures ValidArgument(Argument(w.gap, ToPieces(w.parts)))
  {
    PartsRunes(w.parts);
    CutBesideAscii(w.gap, PartsBytes(w.parts));
    AsciiRunes(w.gap);
    hide Runes, PartsBytes, PiecesText, ValidPiece, ToPiece;
    forall p | p in ToPieces(w.parts) ensures ValidPiece(p) {
      var i :| 0 <= i < |w.parts| && ToPieces(w.parts)[i] == p;
    }
  }

  lemma {:induction false} LineRunes(ws: seq<Word>)
    requires ValidWords(ws)
    ensures Runes(LineBytes(ws)) == LineText(ToArguments(ws))
    decreases |ws|
  {
    hide PartsBytes, PiecesText, ToPieces, ValidParts;
    if ws != [] {
      var front, last := ws[..|ws| - 1], ws[|ws| - 1];
      assert ValidWords(front);
      LineRunes(front);
      WordRunes(last);
      assert front == [] ==> LineBytes(front) == [];
      assert front != [] ==> last.gap != [] && last.gap[0] < 0x80;
      CutBesideAscii(LineBytes(front), last.gap + PartsBytes(last.parts));
      var args := ToArguments(ws);
      assert args[..|args| - 1] == ToArguments(front);
      var x, y, z := LineText(ToArguments(front)), last.gap, PiecesText(ToPieces(last.parts));
      assert x + (y + z) == x + y + z;
    }
  }

  lemma ArgumentsValid(ws: seq<Word>)
    requires ValidWords(ws)
    ensures ValidLine(ToArguments(ws))
  {
    hide ValidWord, ValidArgument, ToPieces;
    var args := ToArguments(ws);
    forall a | a in args ensures ValidArgument(a) {
      var i :| 0 <= i < |args| && args[i] == a;
      WordRunes(ws[i]);
    }
  }

  lemma {:induction false} BodyWritten(ps: seq<Part>)
    ensures Written(Meant(ToPieces(ps))) == Body(ps)
    decreases |ps|
  {
    hide Written;
    if ps == [] {
      WrittenIfEmpty([]);
    } else {
      var front := ps[..|ps| - 1];
      BodyWritten(front);
      assert ToPieces(ps)[..|ps| - 1] == ToPieces(front);
      WrittenAppend(Meant(ToPieces(front)), Runes(ps[|ps| - 1].body));
    }
  }

  /**
   A line of words, each made of adjacent parts with and without quotes, with blanks between and after
   them, tokenizes to the parts' bodies put together.
   */
  lemma {:induction false} RenderedLineReadsBack(ws: seq<Word>, trailing: Bytes)
    requires ValidWords(ws) && forall i | 0 <= i < |trailing| :: IsBlank(trailing[i])
    ensures Tokenized(LineBytes(ws) + trailing) == Some(Bodies(ws))
  {
    hide Runes, LineBytes, LineText, ValidLine, Written, Body, ValidWords;
    LineRunes(ws);
    ArgumentsValid(ws);
    AsciiBoundary(LineBytes(ws), trailing);
    AsciiRunes(trailing);
    var args := ToArguments(ws);
    RenderedReadsBack(args, trailing);
    forall i | 0 <= i < |ws| ensures AllWritten(AllMeant(args))[i] == Bodies(ws)[i] {
      BodyWritten(ws[i].parts);
    }
    assert AllWritten(AllMeant(args)) == Bodies(ws);
  }

  function Joined(ps: seq<Part>): Bytes
  {
    if ps == [] then [] else Joined(ps[..|ps| - 1]) + ps[|ps| - 1].body
  }

  /** Well-formed bodies come back byte for byte. */
  lemma {:induction false} ValidBodies(ps: seq<Part>)
    requires forall i | 0 <= i < |ps| :: ValidUtf8(ps[i].body)
    ensures Body(ps) == Joined(ps)
  {
    hide Runes, Written;
    if ps != [] {
      ValidBodies(ps[..|ps| - 1]);
      assert ValidUtf8(ps[|ps| - 1].body);
    }
  }

  /** An ordinary word tokenizes to itself. */
  lemma WordIsItself(word: Bytes)
    requires word != [] && ValidUtf8(word)
    requires forall i | 0 <= i < |word| :: word[i] !in {0x20, 0x09, 0x22, 0x27}
    ensures Tokenized(word) == Some([word])
  {
    var parts := [Plain(word)];
    var ws := [Word([], parts)];
    assert parts[..0] == [] && ws[..0] == [];
    assert ValidWords(ws);
    RenderedLineReadsBack(ws, []);
    ValidBodies(parts);
    hide Tokenized, ValidUtf8, Body;
    assert PartsBytes(parts) == [] + word == word;
    assert LineBytes(ws) == [] + ([] + word) == word;
    assert Joined(parts) == [] + word == word;
    assert LineBytes(ws) + [] == word;
    assert Bodies(ws) == [word];
  }

  predicate IsWord(w: Bytes)
  {
    w != [] && ValidUtf8(w) && forall i | 0 <= i < |w| :: w[i] !in {0x20, 0x09, 0x22, 0x27}
  }

  /** So do several with blanks between them. */
  lemma {:induction false} WordsAreThemselves(words: seq<Bytes>)
    requires forall i | 0 <= i < |words| :: IsWord(words[i])
    ensures Tokenized(Spaced(words)) == Some(words)
  {
    hide IsWord, Tokenized;
    if words == [] {
      NothingTyped();
    } else {
      var front, last := words[..|words| - 1], words[|words| - 1];
      WordsAreThemselves(front);
      assert Tokenized(last) == Some([last]) by {
        OneWord(last);
      }
      LinesJoinedByBlank(Spaced(front), last);
      assert words == front + [last];
    }
  }

  lemma OneWord(w: Bytes)
    requires IsWord(w)
    ensures Tokenized(w) == Some([w])
  {
    hide ValidUtf8, Tokenized;
    WordIsItself(w);
  }

  lemma NothingTyped()
    ensures Tokenized(Spaced([])) == Some([])
  {
    NoRunes();
  }

  function Spaced(words: seq<Bytes>): Bytes
  {
    if words == [] then [] else Spaced(words[..|words| - 1]) + [0x20] + words[|words| - 1]
  }
}
