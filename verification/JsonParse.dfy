/** json_parse_ex: the two passes over one text. */
module JsonParse {
  import opened JsonSpec
  import opened JsonFirst
  import opened JsonPasses
  import opened JsonAgree
  import opened JsonTree
  import opened JsonFree
  import opened JsonParser
  import opened JsonGrammar
  import opened JsonBuilds

  /** The text behind a byte order mark. */
  function SkipMark(bytes: string): string {
    if |bytes| >= 3 && bytes[0] as int == 0xEF && bytes[1] as int == 0xBB && bytes[2] as int == 0xBF then bytes[3..]
    else bytes
  }

  /** Exactly the three bytes EF BB BF in front are left out. */
  lemma MarkIsSkipped(t: string)
    ensures SkipMark([0xEF as char, 0xBB as char, 0xBF as char] + t) == t
    ensures !(|t| >= 3 && t[..3] == [0xEF as char, 0xBB as char, 0xBF as char]) ==> SkipMark(t) == t
  {
  }

  datatype Answer = Accepted(nodes: seq<Node>) | Rejected

  /** How many values json_parse_ex allocates for a text, accepted or not. */
  function Values(bytes: string, comments: bool): nat { Made(First(SkipMark(bytes), comments), START) }

  /** Exactly the first n values were freed, each once. */
  ghost predicate FreesAll(log: seq<Block>, n: nat) {
    NoDouble(log) && forall b :: b in log <==> b.Value? && b.k < n
  }

  /** A text is parsed exactly when it is one of the grammar; what comes out is the
      tree that it writes, in memory of exactly the counted size. The error exit
      gives back every value that the first pass had made. */
  method Parse(bytes: string, comments: bool) returns (r: Answer, freed: seq<Block>)
    ensures r.Accepted? <==> Document(SkipMark(bytes), comments).Got?
    ensures r.Accepted? ==>
      var v := Document(SkipMark(bytes), comments).v; Denotes(r.nodes, 0, v) && |r.nodes| == Size(v)
    ensures r.Accepted? ==>
      var o := Run(First(SkipMark(bytes), comments), START); o.Done? && IsTree(r.nodes) && Built(o.final.nodes, r.nodes)
    ensures if r.Accepted? then freed == [] && |r.nodes| == Values(bytes, comments)
            else FreesAll(freed, Values(bytes, comments))
  {
    hide Run, IsTree, Built, Keeps, Document, Denotes, Made;
    var text := SkipMark(bytes);
    var parser := new Parser(text, comments);
    ParserIsGrammar(text, comments);
    var flow := parser.FirstPass();
    if flow != Stop {
      var ks := parser.Discard();
      freed := seq(|ks|, i requires 0 <= i < |ks| => Value(ks[i]));
      InOrder(freed);
      return Rejected, freed;
    }
    PassesAgree(text, comments);
    ParsedIsTree(text, comments);
    AllInTree(text, comments);
    parser.SecondPass();
    AllNamed(parser.plan, parser.nodes);
    var nodes := parser.Collect();
    return Accepted(nodes), [];
  }

  lemma InOrder(log: seq<Block>)
    requires forall i | 0 <= i < |log| :: log[i] == Value(i)
    ensures FreesAll(log, |log|)
  {
    forall b ensures b in log <==> b.Value? && b.k < |log| {
      if b.Value? && b.k < |log| { assert log[b.k] == b; }
    }
  }

  lemma AllInTree(text: string, comments: bool)
    requires Run(First(text, comments), START).Done?
    ensures |Run(First(text, comments), START).final.nodes| == Made(First(text, comments), START)
  {
    hide Run, Made;
    MadeIsNodes(First(text, comments), START);
  }

  lemma AllNamed(plan: seq<Node>, nodes: seq<Node>)
    requires Built(plan, nodes)
    ensures |nodes| == |plan|
    ensures forall k | 0 <= k < |nodes| && nodes[k].kind == Object :: |nodes[k].keys| == nodes[k].length
  {
    forall k | 0 <= k < |nodes| && nodes[k].kind == Object ensures |nodes[k].keys| == nodes[k].length {
      assert BuiltAt(plan, nodes, k);
    }
  }

  /** Parsing and freeing: whatever the text, every value that was allocated is freed
      once; with a tree its blocks are too, and nothing else is. */
  method ParseAndFree(bytes: string, comments: bool) returns (r: Answer, log: seq<Block>)
    ensures r.Accepted? <==> Document(SkipMark(bytes), comments).Got?
    ensures NoDouble(log) && forall k: nat :: Value(k) in log <==> k < Values(bytes, comments)
    ensures r.Accepted? ==> forall k: nat :: FreedAt(r.nodes, log, k)
    ensures forall b: Block | !b.Value? :: b in log <==> r.Accepted? && Owned(r.nodes, b)
  {
    hide Document, Denotes, Run, Built, IsTree, Made;
    r, log := Parse(bytes, comments);
    if r.Accepted? { log := FreeWalk(r.nodes); }
  }
}
