/**
  The prompt builder of the answer generator (build_prompt in
  api/RAG/generator.py): at most three contexts, each cut to 500 characters,
  set into a fixed instruction template.
 */
module Generator {
  import opened Text

  const MaxContexts := 3
  const MaxContextChars := 500
  const Instruction := "Answer the question using ONLY the context. If unknown, say 'I don't know'.\n\n"
  const ContextHeader := "Context:\n"
  const ItemSeparator := "\n\n"

  /** One bullet of the context block: "- " and the first 500 characters. */
  function Item(c: string): (r: string)
    ensures |r| == 2 + (if |c| < MaxContextChars then |c| else MaxContextChars)
    ensures r[..2] == "- " && r[2..] == c[..|r| - 2]
  {
    "- " + Prefix(c, MaxContextChars)
  }

  /** The bullets of a list of contexts, in order. */
  function Items(cs: seq<string>): (r: seq<string>)
    ensures |r| == |cs|
    ensures forall k :: 0 <= k < |cs| ==> r[k] == Item(cs[k])
  {
    if cs == [] then [] else Items(cs[..|cs| - 1]) + [Item(cs[|cs| - 1])]
  }

  /** `ctx` of line 16: the bullets of the first three contexts, a blank line between each two; empty exactly when there are no contexts. */
  function ContextBlock(contexts: seq<string>): (r: string)
    ensures r == "" <==> contexts == []
  {
    var items := Items(Prefix(contexts, MaxContexts));
    if items == [] then ""
    else
      JoinWithEndsWithLast(ItemSeparator, items);
      JoinWith(ItemSeparator, items)
  }

  /**
    build_prompt (lines 14-21): the instruction line and the context header,
    then the context block, then the question and the answer cue.
   */
  function BuildPrompt(question: string, contexts: seq<string>): (p: string)
    ensures var head, tail := Instruction + ContextHeader, "\n\nQuestion: " + question + "\nAnswer:";
      |p| == |head| + |ContextBlock(contexts)| + |tail| &&
      p[..|head|] == head &&
      p[|p| - |tail|..] == tail &&
      p[|head|..|p| - |tail|] == ContextBlock(contexts)
  {
    var head, block, tail := Instruction + ContextHeader, ContextBlock(contexts), "\n\nQuestion: " + question + "\nAnswer:";
    var p := head + block + tail;
    assert p[..|head|] == head && p[|head|..|p| - |tail|] == block && p[|p| - |tail|..] == tail;
    p
  }

  /** Items of at most `m` characters each add up to at most `|xs| * m` characters. */
  lemma {:induction false} TotalLengthBound(xs: seq<string>, m: nat)
    requires forall k :: 0 <= k < |xs| ==> |xs[k]| <= m
    ensures TotalLength(xs) <= |xs| * m
    decreases |xs|
  {
    if xs != [] {
      TotalLengthBound(xs[..|xs| - 1], m);
      assert (|xs| - 1) * m + m == |xs| * m;
    }
  }

  /**
    Joining items of at most `m` characters each with a separator of `|sep|`
    characters gives at most `|xs| * m + (|xs| - 1) * |sep|` characters.
   */
  lemma JoinWithBound(sep: string, xs: seq<string>, m: nat)
    requires xs != []
    requires forall k :: 0 <= k < |xs| ==> |xs[k]| <= m
    ensures |JoinWith(sep, xs)| <= |xs| * m + (|xs| - 1) * |sep|
  {
    TotalLengthBound(xs, m);
  }

  /** The context block never exceeds three bullets of 502 characters and two separators. */
  lemma ContextBlockBound(contexts: seq<string>)
    ensures |ContextBlock(contexts)| <= MaxContexts * (2 + MaxContextChars) + (MaxContexts - 1) * |ItemSeparator|
  {
    var items := Items(Prefix(contexts, MaxContexts));
    if items != [] {
      JoinWithBound(ItemSeparator, items, 2 + MaxContextChars);
    }
  }

  /** Only the first three contexts, and only their first 500 characters, matter. */
  lemma PromptDependsOnHeads(question: string, c1: seq<string>, c2: seq<string>)
    requires |Prefix(c1, MaxContexts)| == |Prefix(c2, MaxContexts)|
    requires forall k :: 0 <= k < |Prefix(c1, MaxContexts)| ==>
      Prefix(c1[k], MaxContextChars) == Prefix(c2[k], MaxContextChars)
    ensures BuildPrompt(question, c1) == BuildPrompt(question, c2)
  {
    assert Items(Prefix(c1, MaxContexts)) == Items(Prefix(c2, MaxContexts));
  }

  /**
    With at least one context, the block starts with its first bullet and each
    further one follows a blank line, in the order of the contexts.
   */
  lemma {:induction false} ContextBlockCons(c: string, rest: seq<string>)
    requires 1 <= |rest| <= 2
    ensures ContextBlock([c] + rest) == Item(c) + ItemSeparator + ContextBlock(rest)
  {
    assert Prefix([c] + rest, MaxContexts) == [c] + rest;
    assert Prefix(rest, MaxContexts) == rest;
    assert Items([c] + rest) == [Item(c)] + Items(rest);
    JoinWithCons(ItemSeparator, Item(c), Items(rest));
  }
}
