/** `NavPoint` (epub2txts/epub2txts.py), the table-of-contents entry both TOC parsers build.
    The parsers keep the same NavPoint object in their `toc` list, on their `stack` and in
    `currentNP`; the model names an entry by its position in `toc` instead, so `stack` and
    `currentNP` hold positions and every update goes through `toc`. */
module NavPoints {
  import opened Wrappers
  import opened Text

  datatype NavPoint = NavPoint(
    id: string,
    playorder: string,
    level: nat,
    content: Option<string>,
    text: Option<string>)

  /** The entry made for the `k`-th element without an id of its own: id `num_k`, play
      order `k`, no content and no text yet. */
  function Numbered(k: nat, level: nat): (np: NavPoint)
    ensures np.id == "num_" + np.playorder && np.level == level
    ensures np.content.None? && np.text.None?
    ensures AllDigits(np.playorder) && DigitsValue(np.playorder) == k
  {
    DigitsValueOfNat(k);
    NavPoint("num_" + NatToString(k), NatToString(k), level, None, None)
  }

  /** Two different counters never give the same id. */
  lemma NumberedDistinct(k1: nat, k2: nat, l1: nat, l2: nat)
    requires k1 != k2
    ensures Numbered(k1, l1).id != Numbered(k2, l2).id
  {
    assert Numbered(k1, l1).id[4..] == Numbered(k1, l1).playorder;
    assert Numbered(k2, l2).id[4..] == Numbered(k2, l2).playorder;
  }

  /** `toc[k].content = c`, every other entry and field unchanged. */
  function SetContent(toc: seq<NavPoint>, k: nat, c: string): (r: seq<NavPoint>)
    requires k < |toc|
    ensures |r| == |toc| && r[k].content == Some(c)
    ensures r[k] == toc[k].(content := Some(c))
    ensures forall j :: 0 <= j < |toc| && j != k ==> r[j] == toc[j]
  {
    toc[k := toc[k].(content := Some(c))]
  }

  /** `toc[k].text = t`, every other entry and field unchanged. */
  function SetText(toc: seq<NavPoint>, k: nat, t: string): (r: seq<NavPoint>)
    requires k < |toc|
    ensures |r| == |toc| && r[k].text == Some(t)
    ensures r[k] == toc[k].(text := Some(t))
    ensures forall j :: 0 <= j < |toc| && j != k ==> r[j] == toc[j]
  {
    toc[k := toc[k].(text := Some(t))]
  }

  /** The stack holds one entry per open level, in increasing position, and every entry
      appended after an open one lies deeper. */
  predicate StackShaped(stack: seq<nat>, toc: seq<NavPoint>) {
    && (forall j :: 0 <= j < |stack| ==> stack[j] < |toc| && toc[stack[j]].level == j)
    && (forall i, j :: 0 <= i < j < |stack| ==> stack[i] < stack[j])
    && (forall j, m :: 0 <= j < |stack| && stack[j] < m < |toc| ==> toc[m].level > j)
  }

  /** Pushing a new last entry one level below the stack's top keeps the stack's shape. */
  lemma StackPush(stack: seq<nat>, toc: seq<NavPoint>, np: NavPoint)
    requires StackShaped(stack, toc) && np.level == |stack|
    ensures StackShaped(stack + [|toc|], toc + [np])
  {
  }

  /** Popping keeps the shape. */
  lemma StackPop(stack: seq<nat>, toc: seq<NavPoint>)
    requires StackShaped(stack, toc) && |stack| > 0
    ensures StackShaped(stack[..|stack| - 1], toc)
  {
  }

  /** Same id, play order and level. */
  predicate SameKeys(a: NavPoint, b: NavPoint) {
    a.id == b.id && a.playorder == b.playorder && a.level == b.level
  }
}
