/** Decimal numbers as the C++ stream and C library functions write and read them. */
module Decimal {
  function Digit(d: nat): char
    requires d < 10
  {
    '0' + d as char
  }

  predicate IsDigit(c: char) {
    '0' <= c <= '9'
  }

  function DigitValue(c: char): nat
    requires IsDigit(c)
  {
    (c - '0') as int
  }

  function Digits(n: nat): string {
    if n < 10 then [Digit(n)] else Digits(n / 10) + [Digit(n % 10)]
  }

  /** `operator<<` of an integer. */
  function Itoa(x: int): string {
    if x < 0 then "-" + Digits(-x) else Digits(x)
  }

  predicate IsSpace(c: char) {
    c == ' ' || 9 as char <= c <= 13 as char
  }

  function SkipSpace(s: string): string {
    if s != [] && IsSpace(s[0]) then SkipSpace(s[1..]) else s
  }

  /** The digits at the front of `s`, read on from `value`. */
  function ReadDigits(s: string, value: nat): nat
    decreases |s|
  {
    if s == [] || !IsDigit(s[0]) then value else ReadDigits(s[1..], 10 * value + DigitValue(s[0]))
  }

  /** `atoi`, where its result fits an int; undefined in C otherwise. */
  function Atoi(s: string): int {
    var t := SkipSpace(s);
    if t != [] && t[0] == '-' then -(ReadDigits(t[1..], 0) as int)
    else if t != [] && t[0] == '+' then ReadDigits(t[1..], 0)
    else ReadDigits(t, 0)
  }

  ghost predicate AllDigits(s: string) {
    forall i | 0 <= i < |s| :: IsDigit(s[i])
  }

  lemma {:induction false} DigitsAreDigits(n: nat)
    ensures AllDigits(Digits(n)) && Digits(n) != []
  {
    if n >= 10 {
      DigitsAreDigits(n / 10);
    }
  }

  lemma {:induction false} ReadDigitsConcat(s: string, rest: string, value: nat)
    requires AllDigits(s)
    ensures ReadDigits(s + rest, value) == ReadDigits(rest, ReadDigits(s, value))
    decreases |s|
  {
    if s == [] {
      assert s + rest == rest;
    } else {
      assert (s + rest)[1..] == s[1..] + rest;
      ReadDigitsConcat(s[1..], rest, 10 * value + DigitValue(s[0]));
    }
  }

  lemma {:induction false} ReadDigitsOfDigits(n: nat)
    ensures ReadDigits(Digits(n), 0) == n
  {
    if n >= 10 {
      ReadDigitsOfDigits(n / 10);
      DigitsAreDigits(n / 10);
      ReadDigitsConcat(Digits(n / 10), [Digit(n % 10)], 0);
      assert [Digit(n % 10)][1..] == [];
    }
  }

  ghost predicate EndsNumber(rest: string) {
    rest == [] || !IsDigit(rest[0])
  }

  lemma ItoaShape(x: int)
    ensures var s := Itoa(x);
            && s != [] && (s[0] == '-' || IsDigit(s[0])) && !IsSpace(s[0])
            && (forall i | 0 <= i < |s| :: s[i] == '-' || IsDigit(s[i]))
            && ('-' in s <==> x < 0)
  {
    DigitsAreDigits(if x < 0 then -x else x);
    assert x < 0 ==> Itoa(x)[0] == '-';
  }

  /** Reading back what was written, whatever follows the number. */
  lemma AtoiOfItoa(x: int, rest: string)
    requires EndsNumber(rest)
    ensures Atoi(Itoa(x) + rest) == x
  {
    ItoaShape(x);
    var n := if x < 0 then -x else x;
    DigitsAreDigits(n);
    ReadDigitsOfDigits(n);
    ReadDigitsConcat(Digits(n), rest, 0);
    if x < 0 {
      assert (Itoa(x) + rest)[1..] == Digits(n) + rest;
    }
  }
}

/** The DOT writer and parser of utils/graphio.cpp. */
module GraphFiles {
  import opened Prelude
  import opened Decimal

  datatype GraphNode = GraphNode(id: uint32, lab: int)
  datatype GraphEdge = GraphEdge(from: uint32, to: uint32, lab: int)

  // ----- the lines of a file -----

  /** `std::setw(5)` with fill '0': zeros in front, sign and all. */
  function Padded(s: string): string
    decreases 5 - |s|
  {
    if |s| < 5 then Padded(['0'] + s) else s
  }

  function TruncRem(a: int, b: int): int
    requires b > 0
  {
    a - b * TruncDiv(a, b)
  }

  /** The graph's name, from tenths of a second since 2020. */
  function GraphName(dt: int): string {
    Itoa(TruncDiv(dt, 100000)) + "_" + Padded(Itoa(TruncRem(dt, 100000)))
  }

  function HeaderLine(dt: int): string {
    "digraph " + GraphName(dt) + " {"
  }

  function NodeLine(n: GraphNode): string {
    Itoa(n.id) + (" [label=" + (Itoa(n.lab) + "]"))
  }

  function EdgeLine(e: GraphEdge): string {
    Itoa(e.from) + (" -> " + (Itoa(e.to) + (" [label=" + (Itoa(e.lab) + "]"))))
  }

  const MS_1970_TO_2020 := (2020 - 1970) * 365 * 24 * 60 * 60 * 1000

  /** Tenths of a second since 2020. */
  function Stamp(nowMs: int): int {
    TruncDiv(nowMs - MS_1970_TO_2020, 100)
  }

  // ----- parsing -----

  predicate IsDelim(c: char) {
    c == ' ' || c == '='
  }

  predicate NoDelims(s: string) {
    forall i | 0 <= i < |s| :: !IsDelim(s[i])
  }

  /** The length of the token that `s` starts with. */
  function TokenLength(s: string): (k: nat)
    ensures k <= |s| && NoDelims(s[..k]) && (k < |s| ==> IsDelim(s[k]))
  {
    if s == [] || IsDelim(s[0]) then 0 else 1 + TokenLength(s[1..])
  }

  /** What a `strtok` loop over " =" yields. */
  function Tokens(s: string): seq<string>
    decreases |s|
  {
    if s == [] then []
    else if IsDelim(s[0]) then Tokens(s[1..])
    else
      var k := TokenLength(s);
      [s[..k]] + Tokens(s[k..])
  }

  method TokenEnd(str: string, pos: nat) returns (end: nat)
    requires pos <= |str|
    ensures end == pos + TokenLength(str[pos..]) && end <= |str|
  {
    end := pos;
    while end < |str| && !IsDelim(str[end])
      invariant pos <= end <= |str|
      invariant TokenLength(str[pos..]) == end - pos + TokenLength(str[end..])
    {
      assert str[end..][1..] == str[end + 1..];
      end := end + 1;
    }
  }

  lemma TokensStep(str: string, pos: nat)
    requires pos < |str|
    ensures var end := pos + TokenLength(str[pos..]);
            end <= |str| &&
            Tokens(str[pos..]) == if IsDelim(str[pos]) then Tokens(str[pos + 1..])
                                  else [str[pos..end]] + Tokens(str[end..])
  {
    var rest := str[pos..];
    var k := TokenLength(rest);
    assert rest[1..] == str[pos + 1..];
    assert rest[..k] == str[pos..pos + k] && rest[k..] == str[pos + k..];
  }

  method Tokenize(str: string) returns (tokens: seq<string>)
    ensures tokens == Tokens(str)
  {
    tokens := [];
    var pos := 0;
    while pos < |str|
      invariant pos <= |str|
      invariant tokens + Tokens(str[pos..]) == Tokens(str)
    {
      TokensStep(str, pos);
      if IsDelim(str[pos]) {
        pos := pos + 1;
      } else {
        var end := TokenEnd(str, pos);
        assert tokens + ([str[pos..end]] + Tokens(str[end..])) == tokens + [str[pos..end]] + Tokens(str[end..]);
        tokens := tokens + [str[pos..end]];
        pos := end;
      }
    }
  }

  /** The first token from `start` on that reads as a nonzero number; -1 when there is none. */
  function LabelFrom(tokens: seq<string>, start: nat): int
    decreases |tokens| - start
  {
    if start >= |tokens| then -1
    else if Atoi(tokens[start]) != 0 then Atoi(tokens[start])
    else LabelFrom(tokens, start + 1)
  }

  method ParseLabel(tokens: seq<string>, from: nat) returns (lab: int)
    ensures lab == LabelFrom(tokens, from)
  {
    var start := from;
    while start < |tokens|
      invariant LabelFrom(tokens, from) == LabelFrom(tokens, start)
    {
      lab := Atoi(tokens[start]);
      if lab != 0 {
        return lab;
      }
      start := start + 1;
    }
    return -1;
  }

  datatype Parsed = Nothing | ANode(node: GraphNode) | AnEdge(edge: GraphEdge)

  function ToUnsigned(x: int): uint32 {
    x % 0x1_0000_0000
  }

  /** A line with a "-" in its second token must have a third one: the code reads it unchecked. */
  predicate LineOk(line: string) {
    var tokens := Tokens(line);
    |tokens| == 2 ==> '-' !in tokens[1]
  }

  function ParsedLine(line: string): Parsed
    requires LineOk(line)
  {
    var tokens := Tokens(line);
    if |tokens| < 2 then Nothing
    else if '-' in tokens[1] then
      AnEdge(GraphEdge(ToUnsigned(Atoi(tokens[0])), ToUnsigned(Atoi(tokens[2])), LabelFrom(tokens, 3)))
    else if Atoi(tokens[0]) != 0 then
      ANode(GraphNode(ToUnsigned(Atoi(tokens[0])), LabelFrom(tokens, 2)))
    else Nothing
  }

  datatype Graph = Graph(nodes: seq<GraphNode>, edges: seq<GraphEdge>)

  function AddTo(g: Graph, p: Parsed): Graph {
    match p
    case Nothing => g
    case ANode(n) => g.(nodes := g.nodes + [n])
    case AnEdge(e) => g.(edges := g.edges + [e])
  }

  method ParseLine(line: string, g: Graph) returns (r: Graph)
    requires LineOk(line)
    ensures r == AddTo(g, ParsedLine(line))
  {
    var tokens := Tokenize(line);
    if |tokens| < 2 {
      return g;
    }
    if '-' in tokens[1] {
      var lab := ParseLabel(tokens, 3);
      return g.(edges := g.edges + [GraphEdge(ToUnsigned(Atoi(tokens[0])), ToUnsigned(Atoi(tokens[2])), lab)]);
    }
    var node := Atoi(tokens[0]);
    if node != 0 {
      var lab := ParseLabel(tokens, 2);
      return g.(nodes := g.nodes + [GraphNode(ToUnsigned(node), lab)]);
    }
    return g;
  }

  /** The length of the line that `s` starts with. */
  function LineLength(s: string): (k: nat)
    ensures k <= |s| && '\n' !in s[..k] && (k < |s| ==> s[k] == '\n')
  {
    if s == [] || s[0] == '\n' then 0 else 1 + LineLength(s[1..])
  }

  /** What a `getline` loop yields. */
  function Lines(s: string): seq<string>
    decreases |s|
  {
    if s == [] then []
    else
      var k := LineLength(s);
      [s[..k]] + if k < |s| then Lines(s[k + 1..]) else []
  }

  predicate FileOk(lines: seq<string>) {
    forall i | 0 <= i < |lines| :: LineOk(lines[i])
  }

  /** The graph read from `lines`, added to `g`. */
  function ParsedFrom(g: Graph, lines: seq<string>): Graph
    requires FileOk(lines)
    decreases |lines|
  {
    if lines == [] then g else ParsedFrom(AddTo(g, ParsedLine(lines[0])), lines[1..])
  }

  method Parse(file: string) returns (g: Graph)
    requires FileOk(Lines(file))
    ensures g == ParsedFrom(Graph([], []), Lines(file))
  {
    g := Graph([], []);
    var input := file;
    while input != []
      invariant FileOk(Lines(input))
      invariant ParsedFrom(g, Lines(input)) == ParsedFrom(Graph([], []), Lines(file))
      decreases |input|
    {
      var k := LineLength(input);
      assert Lines(input)[0] == input[..k];
      var rest := if k < |input| then input[k + 1..] else [];
      assert Lines(input)[1..] == Lines(rest);
      g := ParseLine(input[..k], g);
      input := rest;
    }
  }

  // ----- what is written reads back -----

  lemma {:induction false} TokenEnds(t: string, rest: string)
    requires NoDelims(t) && (rest == [] || IsDelim(rest[0]))
    ensures TokenLength(t + rest) == |t|
  {
    if t == [] {
      assert t + rest == rest;
    } else {
      TailOfConcat(t, rest);
      TokenEnds(t[1..], rest);
    }
  }

  lemma TokenThenDelim(t: string, rest: string)
    requires t != [] && NoDelims(t) && (rest == [] || IsDelim(rest[0]))
    ensures Tokens(t + rest) == [t] + Tokens(rest)
  {
    TokenEnds(t, rest);
    SplitConcat(t, rest);
    TailOfConcat(t, rest);
  }

  lemma SkipDelim(s: string)
    requires s != [] && IsDelim(s[0])
    ensures Tokens(s) == Tokens(s[1..])
  {
  }

  ghost predicate IsToken(t: string) {
    t != [] && NoDelims(t)
  }

  /** A written number is one token on one line, also before a "]", and reads as itself. */
  lemma ItoaToken(x: int)
    ensures IsToken(Itoa(x)) && IsToken(Itoa(x) + "]") && Atoi(Itoa(x)) == x
    ensures '\n' !in Itoa(x) && '\n' !in Itoa(x) + "]"
  {
    ItoaShape(x);
    AtoiOfItoa(x, []);
    assert Itoa(x) + [] == Itoa(x);
  }

  lemma TwoTokens(d: char, t: string, e: char, u: string)
    requires IsDelim(d) && IsDelim(e) && IsToken(t) && IsToken(u)
    ensures Tokens([d] + (t + ([e] + u))) == [t, u]
  {
    var tail := [e] + u;
    TailOfConcat([d], t + tail);
    assert [d][1..] + (t + tail) == t + tail;
    SkipDelim([d] + (t + tail));
    TokenThenDelim(t, tail);
    TokenAfterDelim(e, u);
  }

  lemma TokenAfterDelim(d: char, t: string)
    requires IsDelim(d) && IsToken(t)
    ensures Tokens([d] + t) == [t]
  {
    TailOfConcat([d], t);
    assert [d][1..] + t == t && t == t + [];
    SkipDelim([d] + t);
    TokenThenDelim(t, []);
  }

  /** The tail " [label=N]" of a line. */
  lemma LabelTokens(l: string)
    requires IsToken(l)
    ensures Tokens(" [label=" + l) == ["[label", l]
  {
    assert " [label=" == " " + ("[label" + "=");
    Assoc(" ", "[label" + "=", l);
    Assoc("[label", "=", l);
    TwoTokens(' ', "[label", '=', l);
  }

  lemma NodeTokens(id: string, l: string)
    requires IsToken(id) && IsToken(l)
    ensures Tokens(id + (" [label=" + l)) == [id, "[label", l]
  {
    TokenThenDelim(id, " [label=" + l);
    LabelTokens(l);
  }

  lemma EdgeTokens(from: string, to: string, l: string)
    requires IsToken(from) && IsToken(to) && IsToken(l)
    ensures Tokens(from + (" -> " + (to + (" [label=" + l)))) == [from, "->", to, "[label", l]
  {
    var second := to + (" [label=" + l);
    TokenThenDelim(from, " -> " + second);
    ArrowTokens(second);
    NodeTokens(to, l);
  }

  lemma ArrowTokens(second: string)
    ensures Tokens(" -> " + second) == ["->"] + Tokens(second)
  {
    var line := " -> " + second;
    SkipDelim(line);
    assert line[1..] == "->" + (" " + second);
    TokenThenDelim("->", " " + second);
    SkipDelim(" " + second);
    assert (" " + second)[1..] == second;
  }

  lemma HeaderTokens(name: string)
    requires IsToken(name)
    ensures Tokens("digraph " + name + " {") == ["digraph", name, "{"]
  {
    var tail := name + " {";
    assert "digraph " + name + " {" == "digraph" + (" " + tail);
    TokenThenDelim("digraph", " " + tail);
    SkipDelim(" " + tail);
    assert (" " + tail)[1..] == tail;
    NameThenBrace(name);
  }

  lemma NameThenBrace(name: string)
    requires IsToken(name)
    ensures Tokens(name + " {") == [name, "{"]
  {
    TokenThenDelim(name, " {");
    SkipDelim(" {");
    assert " {"[1..] == "{" + [];
    TokenThenDelim("{", []);
  }

  lemma LabelReadsBack(tokens: seq<string>, lab: int)
    requires |tokens| >= 2 && tokens[|tokens| - 2] == "[label" && tokens[|tokens| - 1] == Itoa(lab) + "]"
    ensures LabelFrom(tokens, |tokens| - 2) == LabelFrom(tokens, |tokens| - 1) == if lab == 0 then -1 else lab
  {
    AtoiOfItoa(lab, "]");
    WordIsNoNumber("[label");
  }

  lemma {:induction false} WordIsNoNumber(word: string)
    requires word != [] && !IsSpace(word[0]) && !IsDigit(word[0]) && word[0] != '-' && word[0] != '+'
    ensures Atoi(word) == 0
  {
  }

  /** A label of 0 is read as -1; every other one is read back. */
  function ReadLabel(lab: int): int {
    if lab == 0 then -1 else lab
  }

  /** For node IDs that `atoi` can represent and that do not read as "no number". */
  lemma NodeLineReadsBack(n: GraphNode)
    requires 1 <= n.id < 0x8000_0000
    ensures LineOk(NodeLine(n)) && '\n' !in NodeLine(n)
    ensures ParsedLine(NodeLine(n)) == ANode(n.(lab := ReadLabel(n.lab)))
  {
    var id, l := Itoa(n.id), Itoa(n.lab) + "]";
    ItoaToken(n.id);
    ItoaToken(n.lab);
    ItoaShape(n.id);
    LabelReadsBack([id, "[label", l], n.lab);
    ReadsAsNode(n, id, l);
    OneLine(id, " [label=" + l);
    OneLine(" [label=", l);
  }

  lemma ReadsAsNode(n: GraphNode, id: string, l: string)
    requires IsToken(id) && IsToken(l) && n.id != 0 && Atoi(id) == n.id
    requires LabelFrom([id, "[label", l], 2) == ReadLabel(n.lab)
    ensures var line := id + (" [label=" + l);
            LineOk(line) && ParsedLine(line) == ANode(n.(lab := ReadLabel(n.lab)))
  {
    NodeTokens(id, l);
    assert '-' !in "[label";
  }

  lemma OneLine(a: string, b: string)
    ensures '\n' !in a + b <==> '\n' !in a && '\n' !in b
  {
  }

  lemma EdgeLineReadsBack(e: GraphEdge)
    requires e.from < 0x8000_0000 && e.to < 0x8000_0000
    ensures LineOk(EdgeLine(e)) && '\n' !in EdgeLine(e)
    ensures ParsedLine(EdgeLine(e)) == AnEdge(e.(lab := ReadLabel(e.lab)))
  {
    var from, to, l := Itoa(e.from), Itoa(e.to), Itoa(e.lab) + "]";
    ItoaToken(e.from);
    ItoaToken(e.to);
    ItoaToken(e.lab);
    LabelReadsBack([from, "->", to, "[label", l], e.lab);
    ReadsAsEdge(e, from, to, l);
    OneLine(from, " -> " + (to + (" [label=" + l)));
    OneLine(" -> ", to + (" [label=" + l));
    OneLine(to, " [label=" + l);
    OneLine(" [label=", l);
  }

  lemma ReadsAsEdge(e: GraphEdge, from: string, to: string, l: string)
    requires IsToken(from) && IsToken(to) && IsToken(l)
    requires Atoi(from) == e.from && Atoi(to) == e.to
    requires LabelFrom([from, "->", to, "[label", l], 3) == ReadLabel(e.lab)
    ensures var line := from + (" -> " + (to + (" [label=" + l)));
            LineOk(line) && ParsedLine(line) == AnEdge(e.(lab := ReadLabel(e.lab)))
  {
    EdgeTokens(from, to, l);
    assert "->"[0] == '-';
  }

  lemma {:induction false} PaddedShape(s: string)
    requires NoDelims(s) && '\n' !in s
    ensures NoDelims(Padded(s)) && Padded(s) != [] && '\n' !in Padded(s)
    ensures '-' in Padded(s) <==> '-' in s
    decreases 5 - |s|
  {
    if |s| < 5 {
      PaddedShape(['0'] + s);
      assert forall c :: c in ['0'] + s <==> c == '0' || c in s;
    }
  }

  /** A graph name is one token, and contains a "-" exactly when the stamp is negative. */
  lemma GraphNameShape(dt: int)
    ensures IsToken(GraphName(dt)) && '\n' !in GraphName(dt)
    ensures '-' in GraphName(dt) <==> dt < 0
  {
    var quot, rem := TruncDiv(dt, 100000), TruncRem(dt, 100000);
    assert dt < 0 <==> quot < 0 || rem < 0;
    ItoaToken(quot);
    ItoaToken(rem);
    ItoaShape(quot);
    ItoaShape(rem);
    PaddedShape(Itoa(rem));
    NameShape(Itoa(quot), Padded(Itoa(rem)));
  }

  lemma NameShape(a: string, b: string)
    requires NoDelims(a) && NoDelims(b) && '\n' !in a && '\n' !in b
    ensures IsToken(a + "_" + b) && '\n' !in a + "_" + b
    ensures '-' in a + "_" + b <==> '-' in a || '-' in b
  {
    assert forall c :: c in a + "_" + b <==> c in a || c == '_' || c in b;
  }

  /**
   * The header contributes nothing exactly when the stamp is not negative; otherwise its "-" makes
   * it an edge from 0 to 0.
   */
  lemma HeaderSkippedIff(dt: int)
    ensures LineOk(HeaderLine(dt)) && '\n' !in HeaderLine(dt)
    ensures ParsedLine(HeaderLine(dt)) == if dt >= 0 then Nothing else AnEdge(GraphEdge(0, 0, -1))
  {
    GraphNameShape(dt);
    HeaderReads(GraphName(dt));
    OneLine("digraph " + GraphName(dt), " {");
    OneLine("digraph ", GraphName(dt));
  }

  lemma HeaderReads(name: string)
    requires IsToken(name)
    ensures var line := "digraph " + name + " {";
            LineOk(line) && ParsedLine(line) == if '-' !in name then Nothing else AnEdge(GraphEdge(0, 0, -1))
  {
    HeaderTokens(name);
    WordIsNoNumber("digraph");
    WordIsNoNumber("{");
  }

  lemma FooterSkipped()
    ensures LineOk("}") && ParsedLine("}") == Nothing
  {
    assert "}" == "}" + [];
    TokenThenDelim("}", []);
  }

  /** Lines one after the other, each ended by a newline. */
  function Joined(lines: seq<string>): string {
    if lines == [] then "" else lines[0] + ("\n" + Joined(lines[1..]))
  }

  ghost predicate NoNewlines(lines: seq<string>) {
    forall i | 0 <= i < |lines| :: '\n' !in lines[i]
  }

  lemma {:induction false} LinesOfJoined(lines: seq<string>)
    requires NoNewlines(lines)
    ensures Lines(Joined(lines)) == lines
  {
    if lines != [] {
      LinesOfJoined(lines[1..]);
      LineThenRest(lines[0], Joined(lines[1..]));
    }
  }

  lemma {:induction false} LineEnds(line: string, rest: string)
    requires '\n' !in line && rest != [] && rest[0] == '\n'
    ensures LineLength(line + rest) == |line|
  {
    if line == [] {
      assert line + rest == rest;
    } else {
      TailOfConcat(line, rest);
      assert '\n' !in line[1..];
      LineEnds(line[1..], rest);
    }
  }

  lemma LineThenRest(line: string, rest: string)
    requires '\n' !in line
    ensures Lines(line + ("\n" + rest)) == [line] + Lines(rest)
  {
    var s := line + ("\n" + rest);
    LineEnds(line, "\n" + rest);
    SplitConcat(line, "\n" + rest);
    assert s[|line| + 1..] == s[|line|..][1..] == rest;
  }

  lemma {:induction false} JoinedSnoc(lines: seq<string>, line: string)
    ensures Joined(lines + [line]) == Joined(lines) + (line + "\n")
  {
    if lines == [] {
      assert lines + [line] == [line] && [line][1..] == [];
      assert line + ("\n" + "") == "" + (line + "\n");
    } else {
      JoinedSnoc(lines[1..], line);
      TailOfConcat(lines, [line]);
      Assoc("\n", Joined(lines[1..]), line + "\n");
      Assoc(lines[0], "\n" + Joined(lines[1..]), line + "\n");
    }
  }

  datatype Written = WroteNode(node: GraphNode) | WroteEdge(edge: GraphEdge)

  predicate InDomain(w: Written) {
    match w
    case WroteNode(n) => 1 <= n.id < 0x8000_0000
    case WroteEdge(e) => e.from < 0x8000_0000 && e.to < 0x8000_0000
  }

  function Line(w: Written): string {
    match w
    case WroteNode(n) => NodeLine(n)
    case WroteEdge(e) => EdgeLine(e)
  }

  function LinesFor(ws: seq<Written>): seq<string>
    decreases |ws|
  {
    if ws == [] then [] else [Line(ws[0])] + LinesFor(ws[1..])
  }

  lemma {:induction false} LinesForSnoc(ws: seq<Written>, w: Written)
    ensures LinesFor(ws + [w]) == LinesFor(ws) + [Line(w)]
    decreases |ws|
  {
    if ws == [] {
      assert [w][1..] == [];
    } else {
      LinesForSnoc(ws[1..], w);
      assert (ws + [w])[1..] == ws[1..] + [w];
      Assoc([Line(ws[0])], LinesFor(ws[1..]), [Line(w)]);
    }
  }

  /** The file between `InitGraph` and `CloseGraph`, and the closed file. */
  function OpenFile(header: string, ws: seq<Written>): string {
    Joined([header] + LinesFor(ws))
  }

  function ClosedFile(header: string, ws: seq<Written>): string {
    Joined([header] + LinesFor(ws) + ["}"])
  }

  /** What is read back for `w`. */
  function ReadAs(w: Written): Parsed {
    match w
    case WroteNode(n) => ANode(n.(lab := ReadLabel(n.lab)))
    case WroteEdge(e) => AnEdge(e.(lab := ReadLabel(e.lab)))
  }

  /** The graph that was written, added to `g`, with labels as they read. */
  function Collected(g: Graph, ws: seq<Written>): Graph
    decreases |ws|
  {
    if ws == [] then g else Collected(AddTo(g, ReadAs(ws[0])), ws[1..])
  }

  /** What is read of one kind, with label 0 as -1. */
  function NodeOf(w: Written): seq<GraphNode> {
    match w
    case WroteNode(n) => [n.(lab := if n.lab == 0 then -1 else n.lab)]
    case WroteEdge(_) => []
  }

  function EdgeOf(w: Written): seq<GraphEdge> {
    match w
    case WroteNode(_) => []
    case WroteEdge(e) => [e.(lab := if e.lab == 0 then -1 else e.lab)]
  }

  function NodesOf(ws: seq<Written>): seq<GraphNode>
    decreases |ws|
  {
    if ws == [] then [] else NodeOf(ws[0]) + NodesOf(ws[1..])
  }

  function EdgesOf(ws: seq<Written>): seq<GraphEdge>
    decreases |ws|
  {
    if ws == [] then [] else EdgeOf(ws[0]) + EdgesOf(ws[1..])
  }

  lemma AddsOne(g: Graph, w: Written)
    ensures AddTo(g, ReadAs(w)) == Graph(g.nodes + NodeOf(w), g.edges + EdgeOf(w))
  {
    assert g.nodes + [] == g.nodes && g.edges + [] == g.edges;
  }

  lemma {:induction false} CollectedMeans(g: Graph, ws: seq<Written>)
    ensures Collected(g, ws) == Graph(g.nodes + NodesOf(ws), g.edges + EdgesOf(ws))
    decreases |ws|
  {
    if ws == [] {
      assert g.nodes + [] == g.nodes && g.edges + [] == g.edges;
    } else {
      AddsOne(g, ws[0]);
      CollectedMeans(AddTo(g, ReadAs(ws[0])), ws[1..]);
      Assoc(g.nodes, NodeOf(ws[0]), NodesOf(ws[1..]));
      Assoc(g.edges, EdgeOf(ws[0]), EdgesOf(ws[1..]));
    }
  }

  lemma LineReadsBack(w: Written)
    requires InDomain(w)
    ensures LineOk(Line(w)) && '\n' !in Line(w) && ParsedLine(Line(w)) == ReadAs(w)
  {
    match w
    case WroteNode(n) => NodeLineReadsBack(n);
    case WroteEdge(e) => EdgeLineReadsBack(e);
  }

  lemma ParsedCons(g: Graph, line: string, rest: seq<string>, p: Parsed)
    requires LineOk(line) && ParsedLine(line) == p && FileOk(rest)
    ensures FileOk([line] + rest) && ParsedFrom(g, [line] + rest) == ParsedFrom(AddTo(g, p), rest)
  {
    assert ([line] + rest)[1..] == rest;
  }

  lemma {:induction false} LinesReadBack(ws: seq<Written>, g: Graph)
    requires forall i | 0 <= i < |ws| :: InDomain(ws[i])
    ensures FileOk(LinesFor(ws) + ["}"])
    ensures ParsedFrom(g, LinesFor(ws) + ["}"]) == Collected(g, ws)
    decreases |ws|
  {
    if ws == [] {
      FooterSkipped();
      ParsedCons(g, "}", [], Nothing);
      assert LinesFor(ws) + ["}"] == ["}"] + [];
    } else {
      LineReadsBack(ws[0]);
      LinesReadBack(ws[1..], AddTo(g, ReadAs(ws[0])));
      Assoc([Line(ws[0])], LinesFor(ws[1..]), ["}"]);
      ParsedCons(g, Line(ws[0]), LinesFor(ws[1..]) + ["}"], ReadAs(ws[0]));
    }
  }

  lemma {:induction false} LinesForNoNewlines(ws: seq<Written>)
    requires forall i | 0 <= i < |ws| :: InDomain(ws[i])
    ensures NoNewlines(LinesFor(ws))
    decreases |ws|
  {
    if ws != [] {
      LineReadsBack(ws[0]);
      LinesForNoNewlines(ws[1..]);
    }
  }

  /**
   * Parsing a written file gives exactly the written nodes and edges, each in order, with label 0
   * read as -1 and every other label preserved; with a negative stamp it starts with a spurious edge.
   */
  lemma WrittenFileReadsBack(dt: int, ws: seq<Written>)
    requires forall i | 0 <= i < |ws| :: InDomain(ws[i])
    ensures FileOk(Lines(ClosedFile(HeaderLine(dt), ws)))
    ensures ParsedFrom(Graph([], []), Lines(ClosedFile(HeaderLine(dt), ws))) ==
              Graph(NodesOf(ws), (if dt >= 0 then [] else [GraphEdge(0, 0, -1)]) + EdgesOf(ws))
  {
    HeaderSkippedIff(dt);
    LinesForNoNewlines(ws);
    var p := if dt >= 0 then Nothing else AnEdge(GraphEdge(0, 0, -1));
    LinesReadBack(ws, AddTo(Graph([], []), p));
    FileReadsBack(HeaderLine(dt), LinesFor(ws), p);
    assert AddTo(Graph([], []), p) == Graph([], if dt >= 0 then [] else [GraphEdge(0, 0, -1)]);
    CollectedMeans(AddTo(Graph([], []), p), ws);
  }

  lemma FileReadsBack(header: string, body: seq<string>, p: Parsed)
    requires '\n' !in header && LineOk(header) && ParsedLine(header) == p
    requires NoNewlines(body) && FileOk(body + ["}"])
    ensures FileOk(Lines(Joined([header] + body + ["}"])))
    ensures ParsedFrom(Graph([], []), Lines(Joined([header] + body + ["}"]))) ==
              ParsedFrom(AddTo(Graph([], []), p), body + ["}"])
  {
    ParsedCons(Graph([], []), header, body + ["}"], p);
    assert [header] + body + ["}"] == [header] + (body + ["}"]);
    LinesOfJoined([header] + body + ["}"]);
  }

  class GraphWriter {
    var file: string
    ghost var header: string
    ghost var written: seq<Written>

    ghost predicate Open()
      reads this
    {
      file == OpenFile(header, written)
    }

    constructor ()
      ensures file == ""
    {
      file, header, written := "", "", [];
    }

    method InitGraph(nowMs: int) returns (name: string)
      modifies this
      ensures Open() && written == []
      ensures header == HeaderLine(Stamp(nowMs)) && name == GraphName(Stamp(nowMs)) + ".dot"
      ensures file == "digraph " + GraphName(Stamp(nowMs)) + " {" + "\n"
    {
      var gname := GraphName(Stamp(nowMs));
      name := gname + ".dot";
      var line := "digraph " + gname + " {";
      file := line + "\n";
      header, written := line, [];
      JoinedSnoc([], line);
      assert [header] + LinesFor([]) == [] + [line];
    }

    method WriteNode(id: uint32, lab: int)
      requires Open()
      modifies this
      ensures Open() && header == old(header)
      ensures written == old(written) + [WroteNode(GraphNode(id, lab))]
      ensures file == old(file) + (Itoa(id) + (" [label=" + (Itoa(lab) + "]")) + "\n")
    {
      var line := Itoa(id) + (" [label=" + (Itoa(lab) + "]"));
      Append(line, WroteNode(GraphNode(id, lab)));
    }

    method WriteEdge(from: uint32, to: uint32, lab: int)
      requires Open()
      modifies this
      ensures Open() && header == old(header)
      ensures written == old(written) + [WroteEdge(GraphEdge(from, to, lab))]
      ensures file == old(file) + (Itoa(from) + (" -> " + (Itoa(to) + (" [label=" + (Itoa(lab) + "]")))) + "\n")
    {
      var line := Itoa(from) + (" -> " + (Itoa(to) + (" [label=" + (Itoa(lab) + "]"))));
      Append(line, WroteEdge(GraphEdge(from, to, lab)));
    }

    /** Writes a line and its `endl`. */
    method Append(line: string, ghost w: Written)
      requires Open() && line == Line(w)
      modifies this
      ensures Open() && header == old(header) && written == old(written) + [w]
      ensures file == old(file) + (line + "\n")
    {
      JoinedSnoc([header] + LinesFor(written), line);
      LinesForSnoc(written, w);
      Assoc([header], LinesFor(written), [line]);
      file := file + (line + "\n");
      written := written + [w];
    }

    method CloseGraph()
      requires Open()
      modifies this
      ensures file == ClosedFile(header, written) && header == old(header) && written == old(written)
      ensures file == old(file) + ("}" + "\n")
    {
      JoinedSnoc([header] + LinesFor(written), "}");
      file := file + ("}" + "\n");
    }
  }

  /** The first token from `start` on that reads as a nonzero number is the i-th. */
  ghost predicate FirstNonzero(tokens: seq<string>, start: nat, i: nat) {
    start <= i < |tokens| && Atoi(tokens[i]) != 0 && forall j | start <= j < i :: Atoi(tokens[j]) == 0
  }

  /** The label is that of the first token that reads as a nonzero number; -1 if none does. */
  lemma {:induction false} LabelIsFirstNonzero(tokens: seq<string>, start: nat)
    ensures forall i: nat | FirstNonzero(tokens, start, i) :: LabelFrom(tokens, start) == Atoi(tokens[i])
    ensures (forall i: nat :: !FirstNonzero(tokens, start, i)) ==> LabelFrom(tokens, start) == -1
    decreases |tokens| - start
  {
    if start < |tokens| {
      if Atoi(tokens[start]) != 0 {
        assert FirstNonzero(tokens, start, start);
      } else {
        var next := start + 1;
        LabelIsFirstNonzero(tokens, next);
        assert LabelFrom(tokens, start) == LabelFrom(tokens, next);
        assert forall i: nat | FirstNonzero(tokens, start, i) :: FirstNonzero(tokens, next, i);
        if forall i: nat :: !FirstNonzero(tokens, start, i) {
          forall i: nat ensures !FirstNonzero(tokens, next, i) {
            assert !FirstNonzero(tokens, start, i);
          }
        }
      }
    }
  }

  /** A last line without a newline is a line too, and an empty file has none. */
  lemma {:induction false} LastLineCounts(line: string)
    requires '\n' !in line
    ensures Lines(line) == if line == [] then [] else [line]
  {
    LineIsAll(line);
    assert line[..|line|] == line;
  }

  lemma {:induction false} LineIsAll(line: string)
    requires '\n' !in line
    ensures LineLength(line) == |line|
  {
    if line != [] {
      assert '\n' !in line[1..];
      LineIsAll(line[1..]);
    }
  }

  /** What a line is read as depends on its tokens alone: fewer than two, or no number in front, are nothing. */
  lemma LineMeans(line: string)
    requires LineOk(line)
    ensures var tokens := Tokens(line);
            && (ParsedLine(line).Nothing? <==>
                  |tokens| < 2 || ('-' !in tokens[1] && Atoi(tokens[0]) == 0))
            && (ParsedLine(line).AnEdge? <==> |tokens| >= 3 && '-' in tokens[1])
            && (ParsedLine(line).AnEdge? && 0 <= Atoi(tokens[0]) < 0x8000_0000 && 0 <= Atoi(tokens[2]) < 0x8000_0000 ==>
                  ParsedLine(line).edge == GraphEdge(Atoi(tokens[0]), Atoi(tokens[2]), LabelFrom(tokens, 3)))
            && (ParsedLine(line).ANode? && 0 <= Atoi(tokens[0]) < 0x8000_0000 ==>
                  ParsedLine(line).node == GraphNode(Atoi(tokens[0]), LabelFrom(tokens, 2)))
  {
  }

  lemma {:induction false} PaddedReads(s: string)
    requires 0 < |s| <= 5 && AllDigits(s)
    ensures |Padded(s)| == 5 && AllDigits(Padded(s)) && ReadDigits(Padded(s), 0) == ReadDigits(s, 0)
    decreases 5 - |s|
  {
    if |s| < 5 {
      PaddedReads(['0'] + s);
      assert (['0'] + s)[1..] == s;
    }
  }

  lemma {:induction false} DigitsFit(n: nat, width: nat, limit: nat)
    requires n < limit && width >= 1 && (width == 1 ==> limit <= 10) && (width > 1 ==> limit <= 10 * Power10(width - 1))
    ensures |Digits(n)| <= width
  {
    if n >= 10 {
      DigitsFit(n / 10, width - 1, Power10(width - 1));
    }
  }

  function Power10(k: nat): nat {
    if k == 0 then 1 else 10 * Power10(k - 1)
  }

  /**
   * The name gives the time back: from 2020 on, its first part counts 100000 tenths of a second, and its
   * second part, of five digits, the tenths.
   */
  lemma NameTellsTime(nowMs: int)
    requires nowMs >= 1_576_800_000_000
    ensures exists q: nat, r: string ::
              && GraphName(Stamp(nowMs)) == Itoa(q) + "_" + r && |r| == 5 && AllDigits(r)
              && 100000 * q + ReadDigits(r, 0) == (nowMs - 1_576_800_000_000) / 100
  {
    var dt := Stamp(nowMs);
    var q, r := dt / 100000, dt % 100000;
    assert TruncDiv(dt, 100000) == q && TruncRem(dt, 100000) == r;
    DigitsAreDigits(r);
    ReadDigitsOfDigits(r);
    assert Power10(4) == 10 * (10 * (10 * (10 * 1)));
    DigitsFit(r, 5, 100000);
    PaddedReads(Digits(r));
    assert GraphName(dt) == Itoa(q) + "_" + Padded(Digits(r));
  }

  ghost predicate NonzeroLabels(g: Graph) {
    && (forall i | 0 <= i < |g.nodes| :: g.nodes[i].lab != 0)
    && (forall i | 0 <= i < |g.edges| :: g.edges[i].lab != 0)
  }

  lemma {:induction false} LabelNeverZero(tokens: seq<string>, start: nat)
    ensures LabelFrom(tokens, start) != 0
    decreases |tokens| - start
  {
    if start < |tokens| {
      LabelNeverZero(tokens, start + 1);
    }
  }

  /** No parsed graph has a label 0, whatever the file. */
  lemma {:induction false} ParsedLabelsNonzero(g: Graph, lines: seq<string>)
    requires FileOk(lines) && NonzeroLabels(g)
    ensures NonzeroLabels(ParsedFrom(g, lines))
    decreases |lines|
  {
    if lines != [] {
      LabelNeverZero(Tokens(lines[0]), 2);
      LabelNeverZero(Tokens(lines[0]), 3);
      ParsedLabelsNonzero(AddTo(g, ParsedLine(lines[0])), lines[1..]);
    }
  }

  lemma {:induction false} CollectedConcat(g: Graph, xs: seq<Written>, ys: seq<Written>)
    ensures Collected(g, xs + ys) == Collected(Collected(g, xs), ys)
    decreases |xs|
  {
    if xs == [] {
      assert xs + ys == ys;
    } else {
      assert (xs + ys)[1..] == xs[1..] + ys;
      CollectedConcat(AddTo(g, ReadAs(xs[0])), xs[1..], ys);
    }
  }
}
