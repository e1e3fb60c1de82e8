/**
 * The two stages together: the SVG that `items_to_svg` builds, read back by `get_text_PVs`.
 * The numbered ids and the stamped labels are the side channel between them.
 */
module Pipeline {
  import opened Wrappers
  import opened PyText
  import opened XmlTree
  import B = BobToSvg
  import G = GrafanaPanel
  import J = Json

  /** An emitted item the first stage stamps with a label: a text update with a PV. */
  predicate Labelled(item: B.Item) {
    item.kind == B.TextUpdate && item.pvName != ""
  }

  /** What the reader makes of the node the first stage numbers `n` for `item`. */
  function Expected(item: B.Item, n: int): G.Step {
    if Labelled(item) then G.Bind(n, Split(item.pvName, ' ')) else G.Fail
  }

  /** The reader's steps over the numbered nodes of `items`, the first numbered 1. */
  function ExpectedSteps(items: seq<B.Item>): (r: seq<G.Step>)
    ensures |r| == |items| && forall k :: 0 <= k < |items| ==> r[k] == Expected(items[k], 1 + k)
  {
    seq(|items|, k requires 0 <= k < |items| => Expected(items[k], 1 + k))
  }

  /** The two stages agree on the id prefix and on the label attribute's qualified name. */
  lemma NamesAgree()
    ensures G.IdPrefix == B.IdPrefix && G.LabelKey == B.LabelAttr
  {
  }

  /** A node carrying the id and the label the first stage writes is read back as that binding. */
  lemma StepOfStamped(e: Element, item: B.Item, n: int)
    requires "id" in e.attrs && e.attrs["id"] == B.IdPrefix + IntToString(n)
    requires B.LabelAttr in e.attrs <==> Labelled(item)
    requires B.LabelAttr in e.attrs ==> e.attrs[B.LabelAttr] == item.pvName
    ensures G.StepOf(e) == Expected(item, n)
  {
    NamesAgree();
    var id := e.attrs["id"];
    assert G.IdPrefix <= id && id[|G.IdPrefix|..] == IntToString(n);
    ParseIntOfString(n);
  }

  /** The node for `item` numbered `n` reads back as the expected step. */
  lemma StepOfTextNode(item: B.Item, n: int)
    ensures G.StepOf(B.TextNode(item, n)) == Expected(item, n)
  {
    StepOfStamped(B.TextNode(item, n), item, n);
  }

  /** The root carries no id, so the reader skips it. */
  lemma RootSkipped(items: seq<B.Item>, width: int, height: int)
    ensures G.StepOf(B.SvgDocument(items, width, height)) == G.Skip
  {
    assert "id" !in B.RootAttrs(width, height);
  }

  /** The document's iteration is the root followed by the text nodes, which have no children. */
  lemma DocumentNodes(items: seq<B.Item>, width: int, height: int)
    ensures Iter(B.SvgDocument(items, width, height)) == [B.SvgDocument(items, width, height)] + B.TextNodes(items)
  {
    var nodes := B.TextNodes(items);
    B.TextNodesNumbered(items);
    forall k | 0 <= k < |nodes| ensures nodes[k].children == [] {
      assert nodes[k] == B.TextNode(B.Emitted(items)[k], 1 + k);
    }
    IterAllLeaves(nodes);
  }

  lemma TextNodeStepAt(items: seq<B.Item>, k: nat)
    requires k < |B.Emitted(items)|
    ensures k < |B.TextNodes(items)|
    ensures G.Steps(B.TextNodes(items))[k] == Expected(B.Emitted(items)[k], 1 + k)
  {
    B.TextNodesNumbered(items);
    var node, item := B.TextNodes(items)[k], B.Emitted(items)[k];
    assert node == B.TextNode(item, 1 + k);
    StepOfTextNode(item, 1 + k);
  }

  /** Each text node reads back as the step expected of its item and number. */
  lemma TextNodeSteps(items: seq<B.Item>)
    ensures G.Steps(B.TextNodes(items)) == ExpectedSteps(B.Emitted(items))
  {
    var nodes := B.TextNodes(items);
    var emitted := B.Emitted(items);
    B.TextNodesNumbered(items);
    var l, r := G.Steps(nodes), ExpectedSteps(emitted);
    assert |l| == |r|;
    forall k | 0 <= k < |l| ensures l[k] == r[k] {
      TextNodeStepAt(items, k);
    }
  }

  /**
   * The reader sees the root and then one node per emitted item, in order, each numbered by
   * its position among the emitted items.
   */
  lemma DocumentSteps(items: seq<B.Item>, width: int, height: int)
    ensures G.Steps(Iter(B.SvgDocument(items, width, height))) == [G.Skip] + ExpectedSteps(B.Emitted(items))
  {
    var doc := B.SvgDocument(items, width, height);
    DocumentNodes(items, width, height);
    RootSkipped(items, width, height);
    TextNodeSteps(items);
    G.StepsAppend([doc], B.TextNodes(items));
  }

  /** Under distinct keys, the last binding of a key is its only one. */
  lemma OnlyBinding(steps: seq<G.Step>, i: nat, k: int)
    requires i < |steps| && steps[i].Bind? && steps[i].key == k
    requires forall j :: 0 <= j < |steps| && j != i ==> !G.Binds(steps, j, k)
    ensures G.LastBinding(steps, k) == Some(steps[i].tokens)
  {
    G.LastBindingIsLast(steps, k);
    assert G.Binds(steps, i, k);
    var w :| 0 <= w < |steps| && steps[w] == G.Bind(k, G.LastBinding(steps, k).value) &&
      forall j :: w < j < |steps| ==> !G.Binds(steps, j, k);
    assert G.Binds(steps, w, k);
  }

  /** The dictionary the reader should rebuild: entry `k + 1` holds the tokens of the k-th emitted PV. */
  function ExpectedPVs(emitted: seq<B.Item>): (r: seq<G.Entry>)
    ensures |r| == |emitted| && forall k :: 0 <= k < |emitted| ==> r[k] == (k + 1, Split(emitted[k].pvName, ' '))
  {
    seq(|emitted|, k requires 0 <= k < |emitted| => (k + 1, Split(emitted[k].pvName, ' ')))
  }

  /** In a dictionary whose entry `k` has key `first + k`, key `n` is entry `n - first` or absent. */
  lemma {:induction false} FindNumbered(es: seq<G.Entry>, first: int, n: int)
    requires forall k :: 0 <= k < |es| ==> es[k].0 == first + k
    ensures G.Find(es, n) == if first <= n < first + |es| then Some(es[n - first].1) else None
  {
    if es != [] {
      if n != first {
        forall k | 0 <= k < |es[1..]| ensures es[1..][k].0 == first + 1 + k {
          assert es[1..][k] == es[k + 1];
        }
        FindNumbered(es[1..], first + 1, n);
        if first + 1 <= n < first + |es| {
          assert es[1..][n - first - 1] == es[n - first];
        }
      }
    }
  }

  /** The reader's loop fails on the expected steps as soon as one emitted item is unlabelled. */
  lemma FoldUnlabelled(emitted: seq<B.Item>, k: nat)
    requires k < |emitted| && !Labelled(emitted[k])
    ensures G.Fold([], [G.Skip] + ExpectedSteps(emitted)) == None
  {
    var steps := [G.Skip] + ExpectedSteps(emitted);
    G.FoldFails([], steps);
    assert steps[k + 1].Fail?;
  }

  /** Each key reads the same in the rebuilt and in the expected dictionary. */
  lemma FoldLabelledKey(emitted: seq<B.Item>, n: int)
    requires forall k :: 0 <= k < |emitted| ==> Labelled(emitted[k])
    requires G.Fold([], [G.Skip] + ExpectedSteps(emitted)).Some?
    ensures G.Find(G.Fold([], [G.Skip] + ExpectedSteps(emitted)).value, n) == G.Find(ExpectedPVs(emitted), n)
  {
    var steps := [G.Skip] + ExpectedSteps(emitted);
    G.FoldFind([], steps, n);
    FindNumbered(ExpectedPVs(emitted), 1, n);
    if 1 <= n <= |emitted| {
      assert steps[n] == ExpectedSteps(emitted)[n - 1] == G.Bind(n, Split(emitted[n - 1].pvName, ' '));
      OnlyBinding(steps, n, n);
    } else {
      G.LastBindingIsLast(steps, n);
    }
  }

  /** On the expected steps of labelled items the reader's loop rebuilds the expected dictionary. */
  lemma FoldLabelled(emitted: seq<B.Item>)
    requires forall k :: 0 <= k < |emitted| ==> Labelled(emitted[k])
    ensures G.Fold([], [G.Skip] + ExpectedSteps(emitted)) == Some(ExpectedPVs(emitted))
  {
    var steps := [G.Skip] + ExpectedSteps(emitted);
    var want := ExpectedPVs(emitted);
    G.FoldFails([], steps);
    assert forall i :: 0 <= i < |steps| ==> !steps[i].Fail?;
    var got := G.Fold([], steps).value;
    forall n ensures G.Find(got, n) == G.Find(want, n) {
      FoldLabelledKey(emitted, n);
    }
    G.FoldFind([], steps, 0);
    FindNumbered(want, 1, 0);
    G.AscendingUnique(got, want);
  }

  /**
   * Round trip, failing side: when some emitted item carries no label (a visible static label,
   * or a text update without a PV), the reader fails on its node and returns nothing.
   */
  lemma RoundTripUnlabelled(items: seq<B.Item>, width: int, height: int, k: nat)
    requires k < |B.Emitted(items)| && !Labelled(B.Emitted(items)[k])
    ensures G.TextPVs(B.SvgDocument(items, width, height)) == []
  {
    DocumentSteps(items, width, height);
    FoldUnlabelled(B.Emitted(items), k);
  }

  /**
   * Round trip, succeeding side: when every emitted item is a text update with a PV, the reader
   * rebuilds one entry per emitted item, numbered from 1 in emission order, holding the tokens
   * of that item's PV.
   */
  lemma RoundTripLabelled(items: seq<B.Item>, width: int, height: int)
    requires forall k :: 0 <= k < |B.Emitted(items)| ==> Labelled(B.Emitted(items)[k])
    ensures G.TextPVs(B.SvgDocument(items, width, height)) == ExpectedPVs(B.Emitted(items))
  {
    DocumentSteps(items, width, height);
    FoldLabelled(B.Emitted(items));
  }

  /** A PV without spaces comes back as the first token: the name the panel queries. */
  lemma FirstTokenIsPv(pv: string)
    requires ' ' !in pv
    ensures Split(pv, ' ')[0] == pv
  {
    SplitWithoutSeparator(pv, ' ');
  }

  /** The mapping for entry `n` names the text node the first stage numbered `n`. */
  lemma MappingNamesNode(item: B.Item, n: int)
    ensures "id" in B.TextNode(item, n).attrs
    ensures J.Get(G.MappingRecord(n).fields, "svgId") == Some(J.String(B.TextNode(item, n).attrs["id"]))
  {
    NamesAgree();
  }

  /** The panel for the rebuilt dictionary: one mapping and one query per emitted item. */
  lemma PanelOfEntries(emitted: seq<B.Item>, template: J.Value, svg: string, helper: string, k: nat)
    requires forall j :: 0 <= j < |emitted| ==> |Split(emitted[j].pvName, ' ')| >= 3
    requires template.Object? && k < |emitted|
    ensures G.Complete(ExpectedPVs(emitted))
    ensures G.AssembleSpec(template, svg, helper, ExpectedPVs(emitted)).Success?
    ensures |G.Mappings(ExpectedPVs(emitted))| == |G.Targets(ExpectedPVs(emitted))| == |emitted|
    ensures G.Mappings(ExpectedPVs(emitted))[k] == G.MappingRecord(k + 1)
    ensures G.Targets(ExpectedPVs(emitted))[k] == G.TargetRecord(k + 1, Split(emitted[k].pvName, ' ')[0])
  {
    var pvs := ExpectedPVs(emitted);
    G.AssembleOutcome(template, svg, helper, pvs);
    G.MappingsAt(pvs, k);
    G.TargetsAt(pvs, k);
  }

  /**
   * End to end: when every emitted item is a text update whose PV text splits into at least
   * three tokens, a panel is written whose k-th mapping is for entry k + 1 (the k-th text node)
   * and whose k-th query asks for the first token of the k-th PV.
   */
  lemma PanelOfDocument(items: seq<B.Item>, width: int, height: int, template: J.Value, svg: string, helper: string, k: nat)
    requires forall j :: 0 <= j < |B.Emitted(items)| ==> Labelled(B.Emitted(items)[j])
    requires forall j :: 0 <= j < |B.Emitted(items)| ==> |Split(B.Emitted(items)[j].pvName, ' ')| >= 3
    requires template.Object? && k < |B.Emitted(items)|
    ensures G.TextPVs(B.SvgDocument(items, width, height)) == ExpectedPVs(B.Emitted(items))
    ensures G.AssembleSpec(template, svg, helper, ExpectedPVs(B.Emitted(items))).Success?
    ensures |G.Mappings(ExpectedPVs(B.Emitted(items)))| == |G.Targets(ExpectedPVs(B.Emitted(items)))| == |B.Emitted(items)|
    ensures G.Mappings(ExpectedPVs(B.Emitted(items)))[k] == G.MappingRecord(k + 1)
    ensures G.Targets(ExpectedPVs(B.Emitted(items)))[k] == G.TargetRecord(k + 1, Split(B.Emitted(items)[k].pvName, ' ')[0])
  {
    RoundTripLabelled(items, width, height);
    PanelOfEntries(B.Emitted(items), template, svg, helper, k);
  }

  /** A text update whose PV text has fewer than three tokens stops the second stage with an IndexError. */
  lemma ShortPvStops(items: seq<B.Item>, width: int, height: int, template: J.Value, svg: string, helper: string, k: nat)
    requires forall j :: 0 <= j < |B.Emitted(items)| ==> Labelled(B.Emitted(items)[j])
    requires k < |B.Emitted(items)| && |Split(B.Emitted(items)[k].pvName, ' ')| < 3
    ensures G.AssembleSpec(template, svg, helper, G.TextPVs(B.SvgDocument(items, width, height))).Failure?
    ensures G.AssembleSpec(template, svg, helper, G.TextPVs(B.SvgDocument(items, width, height))).error.IndexError?
  {
    var pvs := G.TextPVs(B.SvgDocument(items, width, height));
    RoundTripLabelled(items, width, height);
    assert |pvs[k].1| < 3;
    G.AssembleOutcome(template, svg, helper, pvs);
  }
}
