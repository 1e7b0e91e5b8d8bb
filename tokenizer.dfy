/** `preprocess_text`, which both scripts define the same way (sv.py, TFIDF.py):
    run the morphological analyser, walk its chain of nodes, and keep the surface
    of every noun, verb, adjective or interjection whose base form is not a
    stopword and whose surface is longer than one character. The two copies
    differ only in their stopword sets, which are a parameter here. */
module Tokenizer {
  import opened Seqs
  import opened Text

  /** One node of the analyser's chain: the text as written, and the
      comma-separated feature string (field 0 is the part of speech, field 6 the
      base form; the sentence-boundary nodes have an empty surface). */
  datatype Node = Node(surface: string, feature: string)

  /** What `parseToNode` gives back: the chain of nodes in order, or an exception. */
  datatype Parse = Nodes(nodes: seq<Node>) | Raised

  /** The argument of `preprocess_text`, which first checks `isinstance(text, str)`. */
  datatype Input = Str(text: string) | NonStr

  /** Noun, verb, adjective and interjection. */
  const TargetPos: set<string> := {"名詞", "動詞", "形容詞", "感動詞"}

  /** `node.feature.split(',')`. */
  function Fields(n: Node): seq<string>
  {
    Split(n.feature, ',')
  }

  /** `features[0]`, which always exists because a split has at least one field. */
  function PartOfSpeech(n: Node): string
  {
    Fields(n)[0]
  }

  /** The form checked against the stopwords: field 6 when there are at least
      seven fields and that field is not the placeholder `*`, else the surface. */
  function CheckForm(n: Node): string
  {
    var fs := Fields(n);
    if |fs| >= 7 && fs[6] != "*" then fs[6] else n.surface
  }

  /** The retention rule of the node loop. */
  predicate Kept(n: Node, stopWords: set<string>)
  {
    PartOfSpeech(n) in TargetPos && CheckForm(n) !in stopWords && |n.surface| > 1
  }

  function KeepFn(stopWords: set<string>): Node -> bool
  {
    n => Kept(n, stopWords)
  }

  function SurfaceOf(n: Node): string
  {
    n.surface
  }

  /** The surfaces of the kept nodes, in chain order. */
  function KeptSurfaces(nodes: seq<Node>, stopWords: set<string>): seq<string>
  {
    FilterMap(nodes, KeepFn(stopWords), SurfaceOf)
  }

  /** What `preprocess_text` returns, with the analyser as a parameter: nothing for
      a non-string, for text shorter than two characters, or when the analyser
      raises; otherwise the kept surfaces. */
  function Preprocess(text: Input, analyse: string -> Parse, stopWords: set<string>): seq<string>
  {
    if text.NonStr? || |text.text| < 2 then []
    else
      match analyse(text.text)
      case Raised => []
      case Nodes(nodes) => KeptSurfaces(nodes, stopWords)
  }

  /** `preprocess_text`: the `while node:` loop appends to `words` as it walks the chain. */
  method PreprocessText(text: Input, analyse: string -> Parse, stopWords: set<string>)
    returns (words: seq<string>)
    ensures words == Preprocess(text, analyse, stopWords)
  {
    words := [];
    if text.NonStr? || |text.text| < 2 {
      return [];
    }
    var parsed := analyse(text.text);
    if parsed.Raised? {
      return [];
    }
    var nodes := parsed.nodes;
    var i := 0;
    while i < |nodes|
      invariant 0 <= i <= |nodes|
      invariant words == KeptSurfaces(nodes[..i], stopWords)
    {
      var node := nodes[i];
      var features := Split(node.feature, ',');
      var hinshi := features[0];
      var checkForm := node.surface;
      if |features| >= 7 && features[6] != "*" {
        checkForm := features[6];
      }
      if hinshi in TargetPos && checkForm !in stopWords && |node.surface| > 1 {
        words := words + [node.surface];
      }
      assert nodes[..i + 1][..i] == nodes[..i];
      i := i + 1;
    }
    assert nodes[..i] == nodes;
  }

  /** The three early returns: a non-string, text shorter than two characters, or
      an analyser that raises all give the empty list. */
  lemma PreprocessEarlyReturns(text: Input, analyse: string -> Parse, stopWords: set<string>)
    ensures text.NonStr? ==> Preprocess(text, analyse, stopWords) == []
    ensures text.Str? && |text.text| < 2 ==> Preprocess(text, analyse, stopWords) == []
    ensures text.Str? && analyse(text.text).Raised? ==> Preprocess(text, analyse, stopWords) == []
  {
  }

  /** Once the analyser has produced its chain, the result is exactly the in-order
      subsequence of surfaces of the nodes that pass the filter: one word per kept
      node, every kept node represented, so never more words than nodes. Each word
      is longer than one character and comes from a node with a target part of
      speech whose check form is not a stopword. */
  lemma PreprocessIsKeptSubsequence(s: string, analyse: string -> Parse, stopWords: set<string>)
    requires |s| >= 2 && analyse(s).Nodes?
    ensures var nodes := analyse(s).nodes;
            var words := Preprocess(Str(s), analyse, stopWords);
            var idx := KeptIndices(nodes, KeepFn(stopWords));
            |words| == |idx| <= |nodes|
            && (forall k :: 0 <= k < |idx| ==> words[k] == nodes[idx[k]].surface)
            && (forall k, l :: 0 <= k < l < |idx| ==> idx[k] < idx[l])
            && (forall i :: 0 <= i < |nodes| ==> (Kept(nodes[i], stopWords) <==> i in idx))
    ensures var nodes := analyse(s).nodes;
            var words := Preprocess(Str(s), analyse, stopWords);
            forall k :: 0 <= k < |words| ==>
              |words[k]| > 1
              && exists i :: 0 <= i < |nodes| && nodes[i].surface == words[k]
                   && PartOfSpeech(nodes[i]) in TargetPos && CheckForm(nodes[i]) !in stopWords
  {
    var nodes := analyse(s).nodes;
    var idx := KeptIndices(nodes, KeepFn(stopWords));
    FilterMapIsKeptImages(nodes, KeepFn(stopWords), SurfaceOf);
    forall i | 0 <= i < |nodes| && i in idx ensures Kept(nodes[i], stopWords) {
      var k :| 0 <= k < |idx| && idx[k] == i;
    }
    var words := Preprocess(Str(s), analyse, stopWords);
    forall k | 0 <= k < |words|
      ensures |words[k]| > 1
      ensures exists i :: 0 <= i < |nodes| && nodes[i].surface == words[k]
                && PartOfSpeech(nodes[i]) in TargetPos && CheckForm(nodes[i]) !in stopWords
    {
      assert Kept(nodes[idx[k]], stopWords);
    }
  }

  /** `[preprocess_text(review) for review in reviews]`. */
  function PreprocessAll(reviews: seq<string>, analyse: string -> Parse, stopWords: set<string>)
    : (r: seq<seq<string>>)
    ensures |r| == |reviews|
  {
    seq(|reviews|, k requires 0 <= k < |reviews| => Preprocess(Str(reviews[k]), analyse, stopWords))
  }

  /** Every word of every processed review is longer than one character, so none is empty. */
  lemma PreprocessAllWordsLong(reviews: seq<string>, analyse: string -> Parse, stopWords: set<string>)
    ensures forall r, k :: 0 <= r < |reviews| && 0 <= k < |PreprocessAll(reviews, analyse, stopWords)[r]|
              ==> |PreprocessAll(reviews, analyse, stopWords)[r][k]| > 1
  {
    var processed := PreprocessAll(reviews, analyse, stopWords);
    forall r, k | 0 <= r < |reviews| && 0 <= k < |processed[r]| ensures |processed[r][k]| > 1 {
      if |reviews[r]| >= 2 && analyse(reviews[r]).Nodes? {
        PreprocessIsKeptSubsequence(reviews[r], analyse, stopWords);
      }
    }
  }

  /** Preprocessing one more review appends its word list. */
  lemma PreprocessAllStep(reviews: seq<string>, analyse: string -> Parse, stopWords: set<string>, r: int)
    requires 0 <= r < |reviews|
    ensures PreprocessAll(reviews[..r + 1], analyse, stopWords)
            == PreprocessAll(reviews[..r], analyse, stopWords) + [Preprocess(Str(reviews[r]), analyse, stopWords)]
  {
  }

  /** `[preprocess_text(review) for review in reviews]`, one call per review in order. */
  method PreprocessReviews(reviews: seq<string>, analyse: string -> Parse, stopWords: set<string>)
    returns (processed: seq<seq<string>>)
    ensures processed == PreprocessAll(reviews, analyse, stopWords)
  {
    processed := [];
    var r := 0;
    while r < |reviews|
      invariant 0 <= r <= |reviews|
      invariant processed == PreprocessAll(reviews[..r], analyse, stopWords)
    {
      var words := PreprocessText(Str(reviews[r]), analyse, stopWords);
      PreprocessAllStep(reviews, analyse, stopWords, r);
      processed := processed + [words];
      r := r + 1;
    }
    assert reviews[..r] == reviews;
  }

  /** The chain is filtered node by node: the result for a chain split in two is the
      result for the first part followed by the result for the second. */
  lemma KeptSurfacesAppend(a: seq<Node>, b: seq<Node>, stopWords: set<string>)
    ensures KeptSurfaces(a + b, stopWords) == KeptSurfaces(a, stopWords) + KeptSurfaces(b, stopWords)
    ensures KeptSurfaces([], stopWords) == []
  {
    FilterMapAppend(a, b, KeepFn(stopWords), SurfaceOf);
  }
}
