// The brace-depth reader of text-format entity blocks.
module Blocks {

  const HEADER := "entity {"

  // White space in the sense of str.isspace.
  predicate IsSpace(c: char) {
    || '\t' <= c <= '\r' || '\U{1C}' <= c <= ' ' || c == '\U{85}' || c == '\U{A0}' || c == '\U{1680}'
    || '\U{2000}' <= c <= '\U{200A}' || c == '\U{2028}' || c == '\U{2029}' || c == '\U{202F}' || c == '\U{205F}'
    || c == '\U{3000}'
  }

  function Rstrip(line: string): string {
    if line != "" && IsSpace(line[|line| - 1]) then Rstrip(line[..|line| - 1]) else line
  }

  predicate IsHeader(line: string) {
    Rstrip(line) == HEADER
  }

  function Count(line: string, c: char): nat {
    if line == "" then 0 else Count(line[..|line| - 1], c) + if line[|line| - 1] == c then 1 else 0
  }

  // Net depth change of a line.
  function Delta(line: string): int {
    Count(line, '{') - Count(line, '}')
  }

  function Depth(lines: seq<string>): int {
    if lines == [] then 0 else Depth(lines[..|lines| - 1]) + Delta(lines[|lines| - 1])
  }

  function Join(lines: seq<string>): string {
    if lines == [] then "" else Join(lines[..|lines| - 1]) + lines[|lines| - 1]
  }

  // ---------- what headers, depths and bodies are ----------

  // The code points that count as white space.
  const WHITE_SPACE: set<int> :=
    {0x9, 0xA, 0xB, 0xC, 0xD, 0x1C, 0x1D, 0x1E, 0x1F, 0x20, 0x85, 0xA0, 0x1680, 0x2000, 0x2001, 0x2002, 0x2003, 0x2004,
     0x2005, 0x2006, 0x2007, 0x2008, 0x2009, 0x200A, 0x2028, 0x2029, 0x202F, 0x205F, 0x3000}

  lemma WhiteSpaceExact(c: char)
    ensures IsSpace(c) <==> c as int in WHITE_SPACE
  {
  }

  lemma {:induction false} RstripExact(line: string)
    ensures |Rstrip(line)| <= |line| && Rstrip(line) == line[..|Rstrip(line)|]
    ensures forall i :: |Rstrip(line)| <= i < |line| ==> IsSpace(line[i])
    ensures Rstrip(line) != "" ==> !IsSpace(Rstrip(line)[|Rstrip(line)| - 1])
    decreases |line|
  {
    if line != "" && IsSpace(line[|line| - 1]) {
      RstripExact(line[..|line| - 1]);
    }
  }

  // A header is the header text followed by white space.
  lemma HeaderExact(line: string)
    ensures IsHeader(line) <==> HEADER <= line && forall i :: |HEADER| <= i < |line| ==> IsSpace(line[i])
  {
    RstripExact(line);
    var n := |Rstrip(line)|;
    if HEADER <= line && forall i :: |HEADER| <= i < |line| ==> IsSpace(line[i]) {
      assert line[|HEADER| - 1] == '{' && !IsSpace('{');
      assert n >= |HEADER|;
    }
  }

  lemma PlainHeader()
    ensures IsHeader("entity {\n") && IsHeader("entity {") && !IsHeader("entity {}") && !IsHeader(" entity {")
  {
    HeaderExact("entity {\n");
    HeaderExact("entity {");
    HeaderExact("entity {}");
    HeaderExact(" entity {");
    assert "entity {}"[8] == '}';
    assert " entity {"[0] == ' ';
  }

  lemma {:induction false} CountExact(line: string, c: char)
    ensures Count(line, c) == |set i | 0 <= i < |line| && line[i] == c|
    decreases |line|
  {
    var at := set i | 0 <= i < |line| && line[i] == c;
    if line == "" {
      assert at == {};
    } else {
      var init := line[..|line| - 1];
      CountExact(init, c);
      var before := set i | 0 <= i < |init| && init[i] == c;
      assert at == if line[|init|] == c then before + {|init|} else before;
    }
  }

  // A line changes the depth by its opening less its closing braces.
  lemma DeltaExact(line: string)
    ensures Delta(line) == |set i | 0 <= i < |line| && line[i] == '{'| - |set i | 0 <= i < |line| && line[i] == '}'|
  {
    CountExact(line, '{');
    CountExact(line, '}');
  }

  // The text of a block is its lines in order, nothing between them.
  lemma {:induction false} JoinExact(a: seq<string>, line: string, b: seq<string>)
    ensures Join(a + [line] + b) == Join(a) + line + Join(b)
    decreases |b|
  {
    var whole := a + [line] + b;
    if b == [] {
      assert whole[..|whole| - 1] == a;
      assert Join(a) + line + "" == Join(a) + line;
    } else {
      var init, last := b[..|b| - 1], b[|b| - 1];
      assert whole[..|whole| - 1] == a + [line] + init && whole[|whole| - 1] == last;
      JoinExact(a, line, init);
      assert Join(a) + line + Join(init) + last == Join(a) + line + (Join(init) + last);
    }
  }

  // ---------- the reader ----------

  datatype Reader = Reader(buf: seq<string>, depth: int, inside: bool, out: seq<string>)

  const FRESH := Reader([], 0, false, [])

  function Feed(r: Reader, line: string): Reader {
    if !r.inside then
      if IsHeader(line) then Reader([], 1, true, r.out) else r
    else
      var depth := r.depth + Delta(line);
      if depth == 0 then Reader(r.buf, depth, false, r.out + [Join(r.buf)])
      else Reader(r.buf + [line], depth, true, r.out)
  }

  function FeedAll(r: Reader, lines: seq<string>): Reader
    decreases |lines|
  {
    if lines == [] then r else FeedAll(Feed(r, lines[0]), lines[1..])
  }

  // ---------- documents ----------

  // A document is a list of noise lines between blocks and blocks proper.
  datatype Piece = Noise(line: string) | Block(header: string, body: seq<string>, close: string)

  // The block's depth returns to zero at its closing line and not before.
  ghost predicate Balanced(body: seq<string>, close: string) {
    && (forall n :: 0 < n <= |body| ==> 1 + Depth(body[..n]) != 0)
    && 1 + Depth(body) + Delta(close) == 0
  }

  ghost predicate WellFormed(p: Piece) {
    match p
    case Noise(line) => !IsHeader(line)
    case Block(header, body, close) => IsHeader(header) && Balanced(body, close)
  }

  ghost predicate WellFormedDoc(doc: seq<Piece>) {
    forall i :: 0 <= i < |doc| ==> WellFormed(doc[i])
  }

  function Lines(p: Piece): seq<string> {
    match p
    case Noise(line) => [line]
    case Block(header, body, close) => [header] + body + [close]
  }

  function Printed(doc: seq<Piece>): seq<string> {
    if doc == [] then [] else Lines(doc[0]) + Printed(doc[1..])
  }

  function Bodies(doc: seq<Piece>): seq<string> {
    if doc == [] then [] else BodyOf(doc[0]) + Bodies(doc[1..])
  }

  function BodyOf(p: Piece): seq<string> {
    if p.Block? then [Join(p.body)] else []
  }

  lemma {:induction false} FeedConcat(r: Reader, a: seq<string>, b: seq<string>)
    ensures FeedAll(r, a + b) == FeedAll(FeedAll(r, a), b)
    decreases |a|
  {
    if a == [] {
      assert a + b == b;
    } else {
      assert (a + b)[0] == a[0] && (a + b)[1..] == a[1..] + b;
      FeedConcat(Feed(r, a[0]), a[1..], b);
    }
  }

  // Inside a block, body lines that keep the depth off zero are buffered.
  lemma {:induction false} FeedBody(r: Reader, body: seq<string>)
    requires r.inside && forall n :: 0 < n <= |body| ==> r.depth + Depth(body[..n]) != 0
    ensures FeedAll(r, body) == Reader(r.buf + body, r.depth + Depth(body), true, r.out)
    decreases |body|
  {
    if body == [] {
      assert r.buf + body == r.buf;
    } else {
      var init, last := body[..|body| - 1], body[|body| - 1];
      assert forall n :: 0 < n <= |init| ==> init[..n] == body[..n];
      FeedBody(r, init);
      FeedConcat(r, init, [last]);
      assert init + [last] == body && body[..|body|] == body;
      FeedOne(Reader(r.buf + init, r.depth + Depth(init), true, r.out), last);
      assert r.buf + init + [last] == r.buf + body;
    }
  }

  lemma FeedOne(r: Reader, line: string)
    ensures FeedAll(r, [line]) == Feed(r, line)
  {
    assert [line][1..] == [];
  }

  lemma FeedBlock(r: Reader, header: string, body: seq<string>, close: string)
    requires !r.inside && IsHeader(header) && Balanced(body, close)
    ensures var r' := FeedAll(r, [header] + body + [close]); !r'.inside && r'.out == r.out + [Join(body)]
  {
    FeedUpToClose(r, header, body, close);
    FeedOne(Reader(body, 1 + Depth(body), true, r.out), close);
  }

  // Header and body lines are buffered; the closing line decides.
  lemma FeedUpToClose(r: Reader, header: string, body: seq<string>, close: string)
    requires !r.inside && IsHeader(header)
    requires forall n :: 0 < n <= |body| ==> 1 + Depth(body[..n]) != 0
    ensures FeedAll(r, [header] + body + [close])
         == FeedAll(Reader(body, 1 + Depth(body), true, r.out), [close])
  {
    FeedConcat(r, [header] + body, [close]);
    FeedConcat(r, [header], body);
    FeedOne(r, header);
    FeedBody(Reader([], 1, true, r.out), body);
    assert [] + body == body;
  }

  lemma FeedPiece(p: Piece, r: Reader)
    requires !r.inside && WellFormed(p)
    ensures var r' := FeedAll(r, Lines(p)); !r'.inside && r'.out == r.out + BodyOf(p)
  {
    match p {
      case Noise(line) => FeedOne(r, line);
      case Block(header, body, close) => FeedBlock(r, header, body, close);
    }
  }

  lemma ReadFirst(p: Piece, rest: seq<string>, r: Reader)
    requires !r.inside && WellFormed(p)
    ensures var r' := FeedAll(r, Lines(p));
      !r'.inside && r'.out == r.out + BodyOf(p) && FeedAll(r, Lines(p) + rest) == FeedAll(r', rest)
  {
    FeedConcat(r, Lines(p), rest);
    FeedPiece(p, r);
  }

  // Reading the printed form of any document of balanced blocks returns exactly their bodies.
  lemma {:induction false} ReadPrinted(doc: seq<Piece>, r: Reader)
    requires !r.inside && WellFormedDoc(doc)
    ensures FeedAll(r, Printed(doc)).out == r.out + Bodies(doc) && !FeedAll(r, Printed(doc)).inside
    decreases |doc|
  {
    if doc == [] {
      assert r.out + [] == r.out;
    } else {
      ReadFirst(doc[0], Printed(doc[1..]), r);
      ReadPrinted(doc[1..], FeedAll(r, Lines(doc[0])));
      Regrouped(r.out, BodyOf(doc[0]), Bodies(doc[1..]));
    }
  }

  lemma Regrouped(a: seq<string>, b: seq<string>, c: seq<string>)
    ensures a + b + c == a + (b + c)
  {
  }

  // ---------- the line loop ----------

  method IterBlocks(lines: seq<string>) returns (blocks: seq<string>)
    ensures blocks == FeedAll(FRESH, lines).out
    ensures forall doc :: WellFormedDoc(doc) && Printed(doc) == lines ==> blocks == Bodies(doc)
  {
    var buf: seq<string>, depth, inside := [], 0, false;
    blocks := [];
    for i := 0 to |lines|
      invariant FeedAll(Reader(buf, depth, inside, blocks), lines[i..]) == FeedAll(FRESH, lines)
    {
      var line := lines[i];
      assert lines[i..][0] == line && lines[i..][1..] == lines[i + 1..];
      if !inside {
        if Rstrip(line) == HEADER {
          inside, depth, buf := true, 1, [];
        }
        continue;
      }
      depth := depth + (Count(line, '{') - Count(line, '}'));
      if depth == 0 {
        blocks := blocks + [Join(buf)];
        inside := false;
      } else {
        buf := buf + [line];
      }
    }
    assert lines[|lines|..] == [];
    forall doc | WellFormedDoc(doc) && Printed(doc) == lines
      ensures blocks == Bodies(doc)
    {
      ReadPrinted(doc, FRESH);
      assert FRESH.out + Bodies(doc) == Bodies(doc);
    }
  }

  // ---------- balance is also necessary ----------

  lemma {:induction false} OutGrows(r: Reader, lines: seq<string>)
    ensures r.out <= FeedAll(r, lines).out
    decreases |lines|
  {
    if lines != [] {
      OutGrows(Feed(r, lines[0]), lines[1..]);
    }
  }

  lemma {:induction false} JoinShorter(lines: seq<string>, n: nat)
    requires n < |lines| && lines[n] != ""
    ensures |Join(lines[..n])| < |Join(lines)|
    decreases |lines|
  {
    var init := lines[..|lines| - 1];
    if n < |init| {
      assert init[..n] == lines[..n];
      JoinShorter(init, n);
    }
  }

  // A single printed block is recovered exactly when it is balanced.
  lemma RecoveredIffBalanced(header: string, body: seq<string>, close: string)
    requires IsHeader(header)
    ensures FeedAll(FRESH, [header] + body + [close]).out == [Join(body)] <==> Balanced(body, close)
  {
    if Balanced(body, close) {
      FeedBlock(FRESH, header, body, close);
    } else if forall n :: 0 < n <= |body| ==> 1 + Depth(body[..n]) != 0 {
      FeedUpToClose(FRESH, header, body, close);
      FeedOne(Reader(body, 1 + Depth(body), true, []), close);
    } else {
      EarlyClose(header, body, close);
    }
  }

  lemma FirstZero(body: seq<string>, m: nat) returns (n: nat)
    requires 0 < m <= |body| && 1 + Depth(body[..m]) == 0
    ensures 0 < n <= |body| && 1 + Depth(body[..n]) == 0
    ensures forall k :: 0 < k < n ==> 1 + Depth(body[..k]) != 0
  {
    n := m;
    if k :| 0 < k < m && 1 + Depth(body[..k]) == 0 {
      n := FirstZero(body, k);
    }
  }

  // The lines up to the first return to zero read as a block of their own.
  lemma EarlyBlock(body: seq<string>, n: nat)
    requires 0 < n <= |body| && 1 + Depth(body[..n]) == 0
    requires forall k :: 0 < k < n ==> 1 + Depth(body[..k]) != 0
    ensures Balanced(body[..n - 1], body[n - 1]) && body[n - 1] != ""
  {
    var head := body[..n - 1];
    assert body[..n][..n - 1] == head;
    assert forall k :: 0 < k <= |head| ==> head[..k] == body[..k];
    assert 1 + Depth(head) != 0 by {
      assert head == [] || 1 + Depth(body[..n - 1]) != 0;
    }
  }

  lemma Regroup(a: seq<string>, b: seq<string>, c: seq<string>, n: nat)
    requires 0 < n <= |b|
    ensures a + b + c == a + b[..n - 1] + [b[n - 1]] + (b[n..] + c)
  {
    assert b == b[..n - 1] + [b[n - 1]] + b[n..];
  }

  // When the depth reaches zero early, a shorter body comes out first.
  lemma EarlyClose(header: string, body: seq<string>, close: string)
    requires IsHeader(header) && exists n :: 0 < n <= |body| && 1 + Depth(body[..n]) == 0
    ensures FeedAll(FRESH, [header] + body + [close]).out != [Join(body)]
  {
    var m :| 0 < m <= |body| && 1 + Depth(body[..m]) == 0;
    var n := FirstZero(body, m);
    EarlyBlock(body, n);
    var first := [header] + body[..n - 1] + [body[n - 1]];
    FeedBlock(FRESH, header, body[..n - 1], body[n - 1]);
    Regroup([header], body, [close], n);
    FirstOut(first, body[n..] + [close], Join(body[..n - 1]));
    JoinShorter(body, n - 1);
  }

  // What has come out first stays first.
  lemma FirstOut(first: seq<string>, rest: seq<string>, block: string)
    requires FeedAll(FRESH, first).out == [block]
    ensures var out := FeedAll(FRESH, first + rest).out; out != [] && out[0] == block
  {
    FeedConcat(FRESH, first, rest);
    OutGrows(FeedAll(FRESH, first), rest);
    assert [block] <= FeedAll(FRESH, first + rest).out;
  }
}
