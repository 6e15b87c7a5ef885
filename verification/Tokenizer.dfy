/** tokenize: the REPL's splitter with single and double quotes. */
module Tokenizer {
  import opened Binary
  import opened Options
  import opened Utf8

  type Text = seq<int>  // runes

  const NO_QUOTE := 0
  const DOUBLE_QUOTE := 0x22
  const SINGLE_QUOTE := 0x27
  const SPACE := 0x20
  const TAB := 0x09

  predicate IsQuote(r: int)
  {
    r == DOUBLE_QUOTE || r == SINGLE_QUOTE
  }

  predicate IsBlank(r: int)
  {
    r == SPACE || r == TAB
  }

  /** The local variables of tokenize; cur is empty outside a token. */
  datatype State = State(tokens: seq<Text>, cur: Text, quote: int, inToken: bool)

  const START := State([], [], NO_QUOTE, false)

  function Flush(st: State): State
  {
    if st.inToken then st.(tokens := st.tokens + [st.cur], cur := [], inToken := false) else st
  }

  function Step(st: State, r: int): State
  {
    if st.quote != NO_QUOTE then
      if r == st.quote then st.(quote := NO_QUOTE) else st.(cur := st.cur + [r])
    else if IsQuote(r) then st.(quote := r, inToken := true)
    else if IsBlank(r) then Flush(st)
    else st.(cur := st.cur + [r], inToken := true)
  }

  function Scan(st: State, line: Text): State
  {
    if line == [] then st else Step(Scan(st, line[..|line| - 1]), line[|line| - 1])
  }

  /** None is the error "unterminated quote". */
  function Tokens(line: Text): Option<seq<Text>>
  {
    var st := Scan(START, line);
    if st.quote != NO_QUOTE then None else Some(Flush(st).tokens)
  }

  /** What WriteRune appends for each rune. */
  function Written(t: Text): Bytes
  {
    if t == [] then [] else Written(t[..|t| - 1]) + Encode(t[|t| - 1])
  }

  function AllWritten(ts: seq<Text>): (r: seq<Bytes>)
    ensures |r| == |ts|
  {
    seq(|ts|, i requires 0 <= i < |ts| => Written(ts[i]))
  }

  /** tokenize as a function of the line's bytes. */
  function Tokenized(line: Bytes): Option<seq<Bytes>>
  {
    var ts := Tokens(Runes(line));
    if ts.None? then None else Some(AllWritten(ts.value))
  }

  method Tokenize(line: Bytes) returns (r: Option<seq<Bytes>>)
    ensures r == Tokenized(line)
  {
    hide Runes, Decode, Width, Encode, Written, AllWritten, Scan;
    NothingWritten();
    var tokens: seq<Bytes>, cur: Bytes, quote: int, inToken := [], [], NO_QUOTE, false;
    var rest := line;
    ghost var seen: Text := [];
    ghost var st := START;
    while rest != []
      invariant seen + Runes(rest) == Runes(line) && st == Scan(START, seen)
      invariant tokens == AllWritten(st.tokens) && cur == Written(st.cur)
      invariant quote == st.quote && inToken == st.inToken
      invariant !inToken ==> st.cur == [] && quote == NO_QUOTE
      decreases |rest|
    {
      var r := Decode(rest);
      RunesOfFirst(rest);
      ScanMore(START, seen, r);
      WrittenMore(st.cur, r);
      AllWrittenMore(st.tokens, st.cur);
      if quote != NO_QUOTE {
        if r == quote {
          quote := NO_QUOTE;
        } else {
          cur := cur + Encode(r);
        }
      } else if r == DOUBLE_QUOTE || r == SINGLE_QUOTE {
        quote := r;
        inToken := true;
      } else if r == SPACE || r == TAB {
        if inToken {
          tokens := tokens + [cur];
          cur := [];
          inToken := false;
        }
      } else {
        inToken := true;
        cur := cur + Encode(r);
      }
      st := Step(st, r);
      WrittenIfEmpty(st.cur);
      seen := seen + [r];
      rest := rest[Width(rest)..];
    }
    assert seen + Runes(rest) == seen;
    AllWrittenMore(st.tokens, st.cur);
    if quote != NO_QUOTE {
      return None;
    }
    if inToken {
      tokens := tokens + [cur];
    }
    return Some(tokens);
  }

  lemma NothingWritten()
    ensures AllWritten([]) == [] && Written([]) == [] && Scan(START, []) == START
  {}

  lemma {:induction false} WrittenIfEmpty(t: Text)
    ensures t == [] ==> Written(t) == []
  {}

  lemma {:induction false} ScanMore(st: State, line: Text, r: int)
    ensures Scan(st, line + [r]) == Step(Scan(st, line), r)
  {
    assert (line + [r])[..|line|] == line;
  }

  lemma {:induction false} WrittenMore(t: Text, r: int)
    ensures Written(t + [r]) == Written(t) + Encode(r)
  {
    assert (t + [r])[..|t|] == t;
  }

  lemma {:induction false} AllWrittenMore(ts: seq<Text>, t: Text)
    ensures AllWritten(ts + [t]) == AllWritten(ts) + [Written(t)]
  {}

  // ---------- scanning piece by piece

  lemma {:induction false} ScanAppend(st: State, a: Text, b: Text)
    ensures Scan(st, a + b) == Scan(Scan(st, a), b)
    decreases |b|
  {
    hide Step;
    if b == [] {
      assert a + b == a;
    } else {
      assert (a + b)[..|a + b| - 1] == a + b[..|b| - 1];
      ScanAppend(st, a, b[..|b| - 1]);
    }
  }

  lemma {:induction false} ScanOne(st: State, r: int)
    ensures Scan(st, [r]) == Step(st, r)
  {
    assert [r][..0] == [];
  }

  /** Outside a token nothing has been collected. */
  predicate Clean(st: State)
  {
    (!st.inToken ==> st.cur == []) && (st.quote != NO_QUOTE ==> st.inToken && IsQuote(st.quote))
  }

  lemma {:induction false} ScanClean(st: State, line: Text)
    requires Clean(st)
    ensures Clean(Scan(st, line))
  {
    if line != [] {
      ScanClean(st, line[..|line| - 1]);
    }
  }

  /** Tokens found earlier stay in front and change nothing else. */
  lemma {:induction false} ScanPrepends(st: State, line: Text, before: seq<Text>)
    ensures Scan(st.(tokens := before + st.tokens), line) ==
      Scan(st, line).(tokens := before + Scan(st, line).tokens)
  {
    if line != [] {
      ScanPrepends(st, line[..|line| - 1], before);
    }
  }

  // ---------- two lines joined by a blank

  /** If a tokenizes, a line a + " " + b gives the tokens of a and then those of b, or fails as b does. */
  lemma JoinedByBlank(a: Text, b: Text)
    requires Tokens(a).Some?
    ensures Tokens(a + [SPACE] + b) ==
      if Tokens(b).None? then None else Some(Tokens(a).value + Tokens(b).value)
  {
    var st := Scan(START, a);
    ScanClean(START, a);
    ScanAppend(START, a + [SPACE], b);
    ScanAppend(START, a, [SPACE]);
    ScanOne(st, SPACE);
    var before := Tokens(a).value;
    assert before + START.tokens == before;
    assert Scan(START, a + [SPACE]) == START.(tokens := before + START.tokens);
    ScanPrepends(START, b, before);
    var end := Scan(START, b);
    assert before + end.tokens + [end.cur] == before + (end.tokens + [end.cur]);
  }

  // ---------- when it fails

  /** A quote is opened at i, outside every other quote, and not closed after that. */
  predicate OpenedAt(line: Text, i: nat)
  {
    i < |line| && IsQuote(line[i]) && Tokens(line[..i]).Some? && line[i] !in line[i + 1..]
  }

  lemma {:induction false} StaysOpen(st: State, line: Text)
    requires st.quote != NO_QUOTE && st.quote !in line
    ensures Scan(st, line).quote == st.quote
  {
    if line != [] {
      assert line == line[..|line| - 1] + [line[|line| - 1]];
      StaysOpen(st, line[..|line| - 1]);
    }
  }

  lemma {:induction false} OpenSince(line: Text) returns (i: nat)
    requires Tokens(line).None?
    ensures OpenedAt(line, i) && line[i] == Scan(START, line).quote
    decreases |line|
  {
    var front := line[..|line| - 1];
    var r := line[|line| - 1];
    if Tokens(front).None? {
      i := OpenSince(front);
      assert line[..i] == front[..i] && line[i + 1..] == front[i + 1..] + [r];
    } else {
      i := |front|;
    }
  }

  /** tokenize fails exactly when a quote is opened and never closed. */
  lemma FailsIffUnclosed(line: Text)
    ensures Tokens(line).None? <==> exists i: nat :: OpenedAt(line, i)
  {
    if Tokens(line).None? {
      var i := OpenSince(line);
      assert OpenedAt(line, i);
    }
    if i: nat :| OpenedAt(line, i) {
      var a, q, b := line[..i], line[i], line[i + 1..];
      assert line == a + [q] + b;
      ScanAppend(START, a + [q], b);
      ScanAppend(START, a, [q]);
      ScanOne(Scan(START, a), q);
      StaysOpen(Scan(START, a + [q]), b);
    }
  }

  // ---------- rendering and reading back

  datatype Piece = Quoted(quote: int, body: Text) | Bare(body: Text)

  /** An argument: blanks, then quoted and bare pieces next to one another. */
  datatype Argument = Argument(gap: Text, pieces: seq<Piece>)

  /** A quoted piece holds anything but its quote, a bare one neither quotes nor blanks. */
  predicate ValidPiece(p: Piece)
  {
    if p.Quoted? then IsQuote(p.quote) && p.quote !in p.body
    else p.body != [] && forall i | 0 <= i < |p.body| :: !IsQuote(p.body[i]) && !IsBlank(p.body[i])
  }

  predicate Blanks(t: Text)
  {
    forall i | 0 <= i < |t| :: IsBlank(t[i])
  }

  predicate ValidArgument(a: Argument)
  {
    Blanks(a.gap) && a.pieces != [] && forall p <- a.pieces :: ValidPiece(p)
  }

  /** Every argument but the first needs a blank before it. */
  predicate ValidLine(args: seq<Argument>)
  {
    (forall a <- args :: ValidArgument(a)) && forall i | 1 <= i < |args| :: args[i].gap != []
  }

  function PieceText(p: Piece): Text
  {
    if p.Quoted? then [p.quote] + p.body + [p.quote] else p.body
  }

  function PiecesText(ps: seq<Piece>): Text
  {
    if ps == [] then [] else PiecesText(ps[..|ps| - 1]) + PieceText(ps[|ps| - 1])
  }

  function Meant(ps: seq<Piece>): Text
  {
    if ps == [] then [] else Meant(ps[..|ps| - 1]) + ps[|ps| - 1].body
  }

  function LineText(args: seq<Argument>): Text
  {
    if args == [] then []
    else LineText(args[..|args| - 1]) + args[|args| - 1].gap + PiecesText(args[|args| - 1].pieces)
  }

  function AllMeant(args: seq<Argument>): (r: seq<Text>)
    ensures |r| == |args|
  {
    seq(|args|, i requires 0 <= i < |args| => Meant(args[i].pieces))
  }

  lemma {:induction false} ScanQuoted(st: State, body: Text)
    requires st.quote != NO_QUOTE && st.quote !in body
    ensures Scan(st, body) == st.(cur := st.cur + body)
  {
    if body == [] {
      assert st.cur + [] == st.cur;
    } else {
      assert body == body[..|body| - 1] + [body[|body| - 1]];
      ScanQuoted(st, body[..|body| - 1]);
    }
  }

  lemma {:induction false} ScanBare(st: State, body: Text)
    requires st.quote == NO_QUOTE && forall i | 0 <= i < |body| :: !IsQuote(body[i]) && !IsBlank(body[i])
    ensures Scan(st, body) == st.(cur := st.cur + body, inToken := st.inToken || body != [])
  {
    if body == [] {
      assert st.cur + [] == st.cur;
    } else {
      assert body == body[..|body| - 1] + [body[|body| - 1]];
      ScanBare(st, body[..|body| - 1]);
    }
  }

  lemma {:induction false} ScanPiece(st: State, p: Piece)
    requires st.quote == NO_QUOTE && ValidPiece(p)
    ensures Scan(st, PieceText(p)) == st.(cur := st.cur + p.body, inToken := true)
  {
    if p.Bare? {
      ScanBare(st, p.body);
    } else {
      ScanAppend(st, [p.quote] + p.body, [p.quote]);
      ScanAppend(st, [p.quote], p.body);
      ScanOne(st, p.quote);
      ScanQuoted(Step(st, p.quote), p.body);
      ScanOne(Scan(st, [p.quote] + p.body), p.quote);
    }
  }

  lemma NoPieces(st: State)
    ensures PiecesText([]) == [] && Meant([]) == [] && Scan(st, []) == st
  {}

  lemma PiecesMore(ps: seq<Piece>, p: Piece)
    ensures PiecesText(ps + [p]) == PiecesText(ps) + PieceText(p) && Meant(ps + [p]) == Meant(ps) + p.body
  {
    assert (ps + [p])[..|ps|] == ps;
  }

  lemma {:induction false} ScanPieces(st: State, ps: seq<Piece>)
    requires st.quote == NO_QUOTE && forall p <- ps :: ValidPiece(p)
    ensures Scan(st, PiecesText(ps)) == st.(cur := st.cur + Meant(ps), inToken := st.inToken || ps != [])
  {
    hide Scan, Step, PieceText, ValidPiece, PiecesText, Meant;
    NoPieces(st);
    if ps == [] {
      assert st.cur + [] == st.cur;
    } else {
      var front, last := ps[..|ps| - 1], ps[|ps| - 1];
      assert ps == front + [last];
      ScanPieces(st, front);
      PiecesMore(front, last);
      ScanAppend(st, PiecesText(front), PieceText(last));
      assert last in ps;
      ScanPiece(Scan(st, PiecesText(front)), last);
      assert st.cur + Meant(front) + last.body == st.cur + (Meant(front) + last.body);
    }
  }

  lemma {:induction false} ScanBlanks(st: State, gap: Text)
    requires st.quote == NO_QUOTE && Blanks(gap)
    ensures Scan(st, gap) == if gap == [] then st else Flush(st)
  {
    if gap != [] {
      ScanBlanks(st, gap[..|gap| - 1]);
    }
  }

  lemma {:induction false} ScanLine(args: seq<Argument>)
    requires ValidLine(args) && args != []
    ensures Scan(START, LineText(args)) ==
      State(AllMeant(args[..|args| - 1]), Meant(args[|args| - 1].pieces), NO_QUOTE, true)
    decreases |args|
  {
    hide Step, Scan, PiecesText, Meant, ValidPiece;
    var front, last := args[..|args| - 1], args[|args| - 1];
    assert last in args && ValidLine(front);
    var st := Scan(START, LineText(front));
    if front == [] {
      ScanNothing(START);
    } else {
      ScanLine(front);
      AllMeantMore(front);
    }
    ScanAppend(START, LineText(front), last.gap);
    ScanBlanks(st, last.gap);
    var open := Scan(START, LineText(front) + last.gap);
    assert open == State(AllMeant(front), [], NO_QUOTE, false);
    ScanAppend(START, LineText(front) + last.gap, PiecesText(last.pieces));
    ScanPieces(open, last.pieces);
    assert [] + Meant(last.pieces) == Meant(last.pieces);
  }

  lemma {:induction false} ScanNothing(st: State)
    ensures Scan(st, []) == st
  {}

  lemma AllMeantMore(args: seq<Argument>)
    requires args != []
    ensures AllMeant(args) == AllMeant(args[..|args| - 1]) + [Meant(args[|args| - 1].pieces)]
  {}

  /** A line of arguments made of quoted and bare pieces, with blanks between and after them, tokenizes back. */
  lemma {:induction false} RenderedReadsBack(args: seq<Argument>, trailing: Text)
    requires ValidLine(args) && Blanks(trailing)
    ensures Tokens(LineText(args) + trailing) == Some(AllMeant(args))
  {
    hide Step, Meant, PiecesText;
    var st := Scan(START, LineText(args));
    if args == [] {
      ScanNothing(START);
    } else {
      ScanLine(args);
      AllMeantMore(args);
    }
    ScanAppend(START, LineText(args), trailing);
    ScanBlanks(st, trailing);
  }

  /** Pieces for any string: each rune in the quote it is not. */
  function PiecesOf(s: Text): (ps: seq<Piece>)
    ensures forall p <- ps :: ValidPiece(p)
    ensures ps != []
  {
    if s == [] then [Quoted(DOUBLE_QUOTE, [])]
    else
      var r := s[|s| - 1];
      PiecesOf(s[..|s| - 1]) + [Quoted(if r == DOUBLE_QUOTE then SINGLE_QUOTE else DOUBLE_QUOTE, [r])]
  }

  lemma {:induction false} PiecesOfMeans(s: Text)
    ensures Meant(PiecesOf(s)) == s
  {
    var ps := PiecesOf(s);
    if s == [] {
      assert ps[..0] == [];
    } else {
      PiecesOfMeans(s[..|s| - 1]);
      assert ps[..|ps| - 1] == PiecesOf(s[..|s| - 1]);
    }
  }

  function Arguments(ss: seq<Text>): (r: seq<Argument>)
    ensures |r| == |ss|
  {
    seq(|ss|, i requires 0 <= i < |ss| => Argument([SPACE], PiecesOf(ss[i])))
  }

  /** So every list of strings, whatever blanks and quotes they hold, is the tokens of some line. */
  lemma EveryListRenders(ss: seq<Text>)
    ensures Tokens(LineText(Arguments(ss))) == Some(ss)
  {
    var args := Arguments(ss);
    forall a | a in args ensures ValidArgument(a) {
      var i :| 0 <= i < |args| && args[i] == a;
      assert a == Argument([SPACE], PiecesOf(ss[i]));
    }
    RenderedReadsBack(args, []);
    assert LineText(args) + [] == LineText(args);
    forall i | 0 <= i < |ss| ensures AllMeant(args)[i] == ss[i] {
      PiecesOfMeans(ss[i]);
    }
    assert AllMeant(args) == ss;
  }

  // ---------- every line is rendered

  /** A line read so far: arguments, then blanks, the pieces of a word, and a quote still open, or none. */
  datatype Reading = Reading(args: seq<Argument>, gap: Text, pieces: seq<Piece>, quote: int, body: Text)

  predicate Reads(line: Text, rd: Reading)
  {
    && line == LineText(rd.args) + rd.gap + PiecesText(rd.pieces) + OpenText(rd)
    && ValidLine(rd.args) && Blanks(rd.gap) && (rd.args != [] ==> rd.gap != [])
    && (forall p <- rd.pieces :: ValidPiece(p))
    && (if rd.quote == NO_QUOTE then rd.body == [] else IsQuote(rd.quote) && rd.quote !in rd.body)
  }

  function OpenText(rd: Reading): Text
  {
    if rd.quote == NO_QUOTE then [] else [rd.quote] + rd.body
  }

  /** The reading after one more rune. */
  function ReadOn(rd: Reading, r: int): Reading
  {
    if rd.quote != NO_QUOTE then
      if r == rd.quote then rd.(pieces := rd.pieces + [Quoted(rd.quote, rd.body)], quote := NO_QUOTE, body := [])
      else rd.(body := rd.body + [r])
    else if IsQuote(r) then rd.(quote := r)
    else if !IsBlank(r) then rd.(pieces := rd.pieces + [Bare([r])])
    else if rd.pieces == [] then rd.(gap := rd.gap + [r])
    else Reading(rd.args + [Argument(rd.gap, rd.pieces)], [r], [], NO_QUOTE, [])
  }

  /** The rune r completes the piece p. */
  lemma ReadsPiece(line: Text, rd: Reading, r: int, p: Piece)
    requires Reads(line, rd) && ValidPiece(p) && PieceText(p) == OpenText(rd) + [r]
    ensures Reads(line + [r], Reading(rd.args, rd.gap, rd.pieces + [p], NO_QUOTE, []))
  {
    var start := LineText(rd.args) + rd.gap;
    hide ValidPiece, ValidLine, PieceText, OpenText, LineText;
    PiecesMore(rd.pieces, p);
    var more := rd.pieces + [p];
    assert forall x <- more :: x in rd.pieces || x == p;
    hide PiecesText;
    assert OpenText(Reading(rd.args, rd.gap, more, NO_QUOTE, [])) == [] by {
      NothingOpen(Reading(rd.args, rd.gap, more, NO_QUOTE, []));
    }
    assert start + (PiecesText(rd.pieces) + (OpenText(rd) + [r])) + [] ==
      start + PiecesText(rd.pieces) + OpenText(rd) + [r];
    assert start + (PiecesText(rd.pieces) + PieceText(p)) == start + PiecesText(more);
  }

  lemma NothingOpen(rd: Reading)
    ensures rd.quote == NO_QUOTE ==> OpenText(rd) == []
  {}

  lemma ReadsGap(line: Text, rd: Reading, r: int)
    requires Reads(line, rd) && rd.quote == NO_QUOTE && rd.pieces == [] && IsBlank(r)
    ensures Reads(line + [r], rd.(gap := rd.gap + [r]))
  {
    assert PiecesText([]) == [];
    hide ValidPiece, ValidLine, LineText, PiecesText, IsBlank;
    assert LineText(rd.args) + (rd.gap + [r]) + [] + [] == LineText(rd.args) + rd.gap + [] + [] + [r];
  }

  lemma ReadsOpen(line: Text, rd: Reading, r: int)
    requires Reads(line, rd) && if rd.quote == NO_QUOTE then IsQuote(r) else r != rd.quote
    ensures Reads(line + [r], if rd.quote == NO_QUOTE then rd.(quote := r) else rd.(body := rd.body + [r]))
  {
    var start := LineText(rd.args) + rd.gap + PiecesText(rd.pieces);
    hide ValidPiece, ValidLine, LineText, PiecesText, IsBlank;
    if rd.quote == NO_QUOTE {
      assert start + [] + [r] == start + ([r] + []);
    } else {
      assert start + ([rd.quote] + rd.body) + [r] == start + ([rd.quote] + (rd.body + [r]));
    }
  }

  lemma ReadsOn(line: Text, rd: Reading, r: int)
    requires Reads(line, rd)
    ensures Reads(line + [r], ReadOn(rd, r))
  {
    assert rd.quote == NO_QUOTE || (IsQuote(rd.quote) && rd.quote !in rd.body);
    assert PieceText(Quoted(rd.quote, rd.body)) == [rd.quote] + rd.body + [rd.quote];
    assert [] + [r] == [r];
    hide Reads;
    if rd.quote == NO_QUOTE && !IsQuote(r) {
      if !IsBlank(r) {
        ReadsBare(line, rd, r);
      } else if rd.pieces == [] {
        ReadsGap(line, rd, r);
      } else {
        ReadsWord(line, rd, r);
      }
    } else if r == rd.quote {
      ReadsPiece(line, rd, r, Quoted(rd.quote, rd.body));
    } else {
      ReadsOpen(line, rd, r);
    }
  }

  lemma ReadsBare(line: Text, rd: Reading, r: int)
    requires Reads(line, rd) && rd.quote == NO_QUOTE && !IsQuote(r) && !IsBlank(r)
    ensures Reads(line + [r], rd.(pieces := rd.pieces + [Bare([r])]))
  {
    assert rd.body == [] && OpenText(rd) + [r] == [r];
    assert ValidPiece(Bare([r])) && PieceText(Bare([r])) == [r];
    hide Reads, ValidPiece, PieceText, OpenText;
    ReadsPiece(line, rd, r, Bare([r]));
  }

  lemma ReadsWord(line: Text, rd: Reading, r: int)
    requires Reads(line, rd) && rd.quote == NO_QUOTE && rd.pieces != [] && IsBlank(r)
    ensures Reads(line + [r], Reading(rd.args + [Argument(rd.gap, rd.pieces)], [r], [], NO_QUOTE, []))
  {
    var last := Argument(rd.gap, rd.pieces);
    assert ValidArgument(last);
    hide ValidPiece, ValidArgument, PiecesText, LineText, IsBlank;
    ValidMore(rd.args, last);
    hide ValidLine;
    LineMore(rd.args, last);
    NoPieces(START);
    var args := rd.args + [last];
    assert LineText(args) + [r] + [] + [] == LineText(args) + [] + [r];
  }

  lemma ValidMore(args: seq<Argument>, a: Argument)
    requires ValidLine(args) && ValidArgument(a) && (args != [] ==> a.gap != [])
    ensures ValidLine(args + [a])
  {
    hide ValidArgument;
    assert forall x <- args + [a] :: x in args || x == a;
  }

  lemma LineMore(args: seq<Argument>, a: Argument)
    ensures LineText(args + [a]) == LineText(args) + a.gap + PiecesText(a.pieces)
  {
    assert (args + [a])[..|args|] == args;
  }

  /** The reading and the state of the scan agree. */
  predicate Agrees(rd: Reading, st: State)
  {
    rd.quote == st.quote && (st.inToken <==> rd.pieces != [] || rd.quote != NO_QUOTE)
  }

  lemma AgreesOn(rd: Reading, st: State, r: int)
    requires Agrees(rd, st) && (rd.quote == NO_QUOTE || IsQuote(rd.quote))
    ensures Agrees(ReadOn(rd, r), Step(st, r))
  {}

  lemma QuoteKnown(line: Text, rd: Reading)
    requires Reads(line, rd)
    ensures rd.quote == NO_QUOTE || IsQuote(rd.quote)
  {}

  lemma ScanLast(line: Text)
    requires line != []
    ensures Scan(START, line) == Step(Scan(START, line[..|line| - 1]), line[|line| - 1])
  {}

  const NOTHING_READ := Reading([], [], [], NO_QUOTE, [])

  lemma NothingRead()
    ensures Reads([], NOTHING_READ) && Agrees(NOTHING_READ, Scan(START, []))
  {
    NoPieces(START);
    assert LineText([]) == [];
    hide Scan, PiecesText, LineText;
  }

  lemma {:induction false} ReadSoFar(line: Text) returns (rd: Reading)
    ensures Reads(line, rd) && Agrees(rd, Scan(START, line))
    decreases |line|
  {
    hide Scan, Step, Agrees, ReadOn, Reads;
    if line == [] {
      NothingRead();
      rd := NOTHING_READ;
    } else {
      var front, r := line[..|line| - 1], line[|line| - 1];
      rd := ReadSoFar(front);
      QuoteKnown(front, rd);
      ReadsOn(front, rd, r);
      AgreesOn(rd, Scan(START, front), r);
      ScanLast(line);
      assert line == front + [r];
      rd := ReadOn(rd, r);
    }
  }

  /** The converse of RenderedReadsBack: a line that tokenizes is one of arguments and blanks. */
  lemma EveryLineIsRendered(line: Text) returns (args: seq<Argument>, trailing: Text)
    requires Tokens(line).Some?
    ensures ValidLine(args) && Blanks(trailing) && line == LineText(args) + trailing
    ensures Tokens(line) == Some(AllMeant(args))
  {
    var rd := ReadSoFar(line);
    if rd.pieces == [] {
      args, trailing := rd.args, rd.gap;
      assert line == LineText(args) + trailing by {
        assert PiecesText([]) == [];
        hide LineText;
        assert LineText(args) + trailing + [] + [] == LineText(args) + trailing;
      }
    } else {
      ReadsWord(line, rd, SPACE);
      args, trailing := rd.args + [Argument(rd.gap, rd.pieces)], [];
      LineOf(line, rd);
    }
    RenderedReadsBack(args, trailing);
  }

  lemma LineOf(line: Text, rd: Reading)
    requires Reads(line, rd) && rd.quote == NO_QUOTE
    ensures LineText(rd.args + [Argument(rd.gap, rd.pieces)]) + [] == line
  {
    LineMore(rd.args, Argument(rd.gap, rd.pieces));
    hide PiecesText, LineText;
  }
}
