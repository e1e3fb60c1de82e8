/**
 * The second stage: the SVG the first stage wrote is read back, every element whose id is
 * `text-<n>` yields an entry `n -> label.split(' ')`, and the entries fill a Grafana panel
 * template: one value mapping and one archiver query per entry, and one `mapValue` call per
 * entry appended to the helper script.
 */
module GrafanaPanel {
  import opened Wrappers
  import opened PyText
  import opened XmlTree
  import opened Json

  /** The id prefix that marks a live text element. */
  const IdPrefix := "text-"
  /** The Inkscape namespace, in ElementTree's `{uri}` spelling. */
  const InkscapeNs := "{http://www.inkscape.org/namespaces/inkscape}"
  /** The qualified name of the attribute that carries an element's PV description. */
  const LabelKey := InkscapeNs + "label"
  /** The archiver data source every query goes to. */
  const DatasourceType := "sasaki77-archiverappliance-datasource"
  const DatasourceUid := "6ATSoo3Nk"

  // ---------------------------------------------------------------- the PV dictionary

  /** One dictionary entry: the number after `text-` and the label's space-separated tokens. */
  type Entry = (int, seq<string>)

  /** The dictionary the reader returns, as its items in order. */
  predicate Ascending(es: seq<Entry>) {
    forall i, j :: 0 <= i < j < |es| ==> es[i].0 < es[j].0
  }

  /** `d.get(k)` on a list of entries. */
  function Find(es: seq<Entry>, k: int): Option<seq<string>> {
    if es == [] then None
    else if es[0].0 == k then Some(es[0].1)
    else Find(es[1..], k)
  }

  /**
   * `d[k] = v` on a dictionary kept in ascending key order: the entry for `k` is replaced where
   * it stands, or a new one goes before the first larger key.
   */
  function Insert(es: seq<Entry>, k: int, v: seq<string>): seq<Entry> {
    if es == [] then [(k, v)]
    else if es[0].0 == k then [(k, v)] + es[1..]
    else if k < es[0].0 then [(k, v)] + es
    else [es[0]] + Insert(es[1..], k, v)
  }

  /** The tail of an ascending list is ascending. */
  lemma AscendingTail(es: seq<Entry>)
    requires Ascending(es) && es != []
    ensures Ascending(es[1..])
    ensures forall i :: 0 <= i < |es[1..]| ==> es[0].0 < es[1..][i].0
  {
    forall i, j | 0 <= i < j < |es[1..]| ensures es[1..][i].0 < es[1..][j].0 {
      assert es[1..][i] == es[i + 1] && es[1..][j] == es[j + 1];
    }
    forall i | 0 <= i < |es[1..]| ensures es[0].0 < es[1..][i].0 {
      assert es[1..][i] == es[i + 1];
    }
  }

  /** An entry in front of an ascending list with a larger first key keeps it ascending. */
  lemma AscendingCons(e: Entry, es: seq<Entry>)
    requires Ascending(es) && (es == [] || e.0 < es[0].0)
    ensures Ascending([e] + es)
  {
    var r := [e] + es;
    forall i, j | 0 <= i < j < |r| ensures r[i].0 < r[j].0 {
      assert r[j] == es[j - 1];
      if i > 0 {
        assert r[i] == es[i - 1];
      } else if j > 1 {
        assert es[0].0 < es[j - 1].0;
      }
    }
  }

  /** Nothing is found under a key below the first of an ascending list. */
  lemma {:induction false} FindBelowFirst(es: seq<Entry>, k: int)
    requires Ascending(es) && (es == [] || k < es[0].0)
    ensures Find(es, k) == None
  {
    if es != [] {
      AscendingTail(es);
      FindBelowFirst(es[1..], k);
    }
  }

  /** Assignment into the dictionary reads back and leaves every other key as it was. */
  lemma {:induction false} InsertFind(es: seq<Entry>, k: int, v: seq<string>, other: int)
    ensures Find(Insert(es, k, v), k) == Some(v)
    ensures other != k ==> Find(Insert(es, k, v), other) == Find(es, other)
  {
    if es != [] && es[0].0 != k && k > es[0].0 {
      InsertFind(es[1..], k, v, other);
    }
  }

  /** Assignment keeps the dictionary in ascending key order. */
  lemma {:induction false} InsertAscending(es: seq<Entry>, k: int, v: seq<string>)
    requires Ascending(es)
    ensures Ascending(Insert(es, k, v))
    ensures Insert(es, k, v)[0].0 == (if es == [] || k < es[0].0 then k else es[0].0)
  {
    if es == [] {
    } else if k < es[0].0 {
      AscendingCons((k, v), es);
    } else if k == es[0].0 {
      AscendingTail(es);
      AscendingCons((k, v), es[1..]);
    } else {
      AscendingTail(es);
      InsertAscending(es[1..], k, v);
      var t := Insert(es[1..], k, v);
      assert t[0].0 == k || t[0].0 == es[1].0;
      AscendingCons(es[0], t);
    }
  }

  /** A key that is found is at or above the first key of an ascending list. */
  lemma {:induction false} FindPresent(es: seq<Entry>, k: int)
    requires Ascending(es)
    ensures Find(es, k).Some? ==> es != [] && es[0].0 <= k
  {
    if es != [] && es[0].0 != k {
      AscendingTail(es);
      FindPresent(es[1..], k);
    }
  }

  /** Two ascending dictionaries that agree on every key are the same list. */
  lemma {:induction false} AscendingUnique(a: seq<Entry>, b: seq<Entry>)
    requires Ascending(a) && Ascending(b)
    requires forall k :: Find(a, k) == Find(b, k)
    ensures a == b
  {
    if a != [] {
      assert Find(b, a[0].0) == Find(a, a[0].0);
      FindPresent(b, a[0].0);
    }
    if b != [] {
      assert Find(a, b[0].0) == Find(b, b[0].0);
      FindPresent(a, b[0].0);
    }
    if a != [] && b != [] {
      assert a[0] == b[0];
      AscendingTail(a);
      AscendingTail(b);
      forall k ensures Find(a[1..], k) == Find(b[1..], k) {
        if k == a[0].0 {
          FindBelowFirst(a[1..], k);
          FindBelowFirst(b[1..], k);
        } else {
          assert Find(a, k) == Find(b, k);
        }
      }
      AscendingUnique(a[1..], b[1..]);
      assert a == [a[0]] + a[1..] && b == [b[0]] + b[1..];
    }
  }

  // ---------------------------------------------------------------- reading the PV dictionary back

  /** What one element of the iteration does to the dictionary. */
  datatype Step =
    | Skip                                 // no id, or an id that does not start with `text-`
    | Bind(key: int, tokens: seq<string>)  // `PVs[key] = tokens`
    | Fail                                 // `int()` rejects the id's tail, or the label is missing

  /**
   * One element as the reader handles it: an id starting with `text-` must end in an integer
   * and the element must carry a label, whose text is split at every single space.
   */
  function StepOf(e: Element): Step {
    if "id" in e.attrs && IdPrefix <= e.attrs["id"] then
      var key := ParseInt(e.attrs["id"][|IdPrefix|..]);
      if key.None? || LabelKey !in e.attrs then Fail
      else Bind(key.value, Split(e.attrs[LabelKey], ' '))
    else Skip
  }

  /** The step of each element, in iteration order. */
  function Steps(nodes: seq<Element>): (r: seq<Step>)
    ensures |r| == |nodes|
  {
    seq(|nodes|, i requires 0 <= i < |nodes| => StepOf(nodes[i]))
  }

  /** The steps of two stretches of the iteration, one after the other. */
  lemma StepsAppend(a: seq<Element>, b: seq<Element>)
    ensures Steps(a + b) == Steps(a) + Steps(b)
  {
    var l, r := Steps(a + b), Steps(a) + Steps(b);
    assert |l| == |r|;
    forall i | 0 <= i < |l| ensures l[i] == r[i] {
      if i < |a| {
        var e := a[i];
        assert (a + b)[i] == e && r[i] == Steps(a)[i];
        assert l[i] == StepOf(e) == Steps(a)[i];
      } else {
        var e := b[i - |a|];
        assert (a + b)[i] == e && r[i] == Steps(b)[i - |a|];
        assert l[i] == StepOf(e) == Steps(b)[i - |a|];
      }
    }
  }

  /** The reader's loop from dictionary `acc` over the steps; None when one of them raises. */
  function Fold(acc: seq<Entry>, steps: seq<Step>): Option<seq<Entry>>
    decreases steps
  {
    if steps == [] then Some(acc)
    else match steps[0]
      case Skip => Fold(acc, steps[1..])
      case Bind(k, t) => Fold(Insert(acc, k, t), steps[1..])
      case Fail => None
  }

  /** `get_text_PVs`: the dictionary of the whole document, or the empty one when reading fails. */
  function TextPVs(root: Element): seq<Entry> {
    match Fold([], Steps(Iter(root)))
    case Some(es) => es
    case None => []
  }

  /** Reference: the tokens of the last step that binds key `k`. */
  function LastBinding(steps: seq<Step>, k: int): Option<seq<string>> {
    if steps == [] then None
    else
      var later := LastBinding(steps[1..], k);
      if later.Some? then later
      else if steps[0].Bind? && steps[0].key == k then Some(steps[0].tokens)
      else None
  }

  /** Step `i` binds key `k`. */
  predicate Binds(steps: seq<Step>, i: int, k: int)
    requires 0 <= i < |steps|
  {
    steps[i].Bind? && steps[i].key == k
  }

  /** The reference names the right step: that step binds `k`, and no later one does. */
  lemma {:induction false} LastBindingIsLast(steps: seq<Step>, k: int)
    ensures LastBinding(steps, k).None? <==> forall i :: 0 <= i < |steps| ==> !Binds(steps, i, k)
    ensures LastBinding(steps, k).Some? ==>
      exists i :: 0 <= i < |steps| && steps[i] == Bind(k, LastBinding(steps, k).value) &&
        forall j :: i < j < |steps| ==> !Binds(steps, j, k)
  {
    if steps != [] {
      var tail := steps[1..];
      LastBindingIsLast(tail, k);
      if LastBinding(tail, k).Some? {
        var i :| 0 <= i < |tail| && tail[i] == Bind(k, LastBinding(tail, k).value) &&
          forall j :: i < j < |tail| ==> !Binds(tail, j, k);
        assert steps[i + 1] == tail[i] && Binds(steps, i + 1, k);
        forall j | i + 1 < j < |steps| ensures !Binds(steps, j, k) {
          assert steps[j] == tail[j - 1] && !Binds(tail, j - 1, k);
        }
      } else {
        forall i | 1 <= i < |steps| ensures !Binds(steps, i, k) {
          assert steps[i] == tail[i - 1] && !Binds(tail, i - 1, k);
        }
        if LastBinding(steps, k).Some? {
          assert steps[0] == Bind(k, LastBinding(steps, k).value) && Binds(steps, 0, k);
        } else {
          assert !Binds(steps, 0, k);
        }
      }
    }
  }

  /** The reader gives up exactly when some step raises. */
  lemma {:induction false} FoldFails(acc: seq<Entry>, steps: seq<Step>)
    ensures Fold(acc, steps).None? <==> exists i :: 0 <= i < |steps| && steps[i].Fail?
    decreases steps
  {
    if steps != [] {
      var acc' := match steps[0] case Bind(k, t) => Insert(acc, k, t) case _ => acc;
      var tail := steps[1..];
      FoldFails(acc', tail);
      if exists i :: 0 <= i < |tail| && tail[i].Fail? {
        var i :| 0 <= i < |tail| && tail[i].Fail?;
        assert steps[i + 1] == tail[i];
      }
      if !steps[0].Fail? && exists i :: 0 <= i < |steps| && steps[i].Fail? {
        var i :| 0 <= i < |steps| && steps[i].Fail?;
        assert tail[i - 1] == steps[i];
      }
    }
  }

  /** A successful read keeps the dictionary sorted and holds, for each key, its last binding. */
  lemma {:induction false} FoldFind(acc: seq<Entry>, steps: seq<Step>, k: int)
    requires Ascending(acc) && Fold(acc, steps).Some?
    ensures Ascending(Fold(acc, steps).value)
    ensures Find(Fold(acc, steps).value, k) == if LastBinding(steps, k).Some? then LastBinding(steps, k) else Find(acc, k)
    decreases steps
  {
    if steps != [] {
      match steps[0]
      case Skip =>
        FoldFind(acc, steps[1..], k);
      case Bind(key, t) =>
        InsertAscending(acc, key, t);
        InsertFind(acc, key, t, k);
        FoldFind(Insert(acc, key, t), steps[1..], k);
    }
  }

  /** Some element of the iteration makes the reader raise. */
  predicate SomeFails(nodes: seq<Element>) {
    exists i :: 0 <= i < |nodes| && StepOf(nodes[i]).Fail?
  }

  /**
   * What the reader returns: nothing when any element of the document makes it raise;
   * otherwise a dictionary with ascending keys holding, for each key, the label tokens of the
   * last element in document order whose id names that key.
   */
  lemma TextPVsMeaning(root: Element, k: int)
    ensures SomeFails(Iter(root)) ==> TextPVs(root) == []
    ensures !SomeFails(Iter(root)) ==> Ascending(TextPVs(root)) && Find(TextPVs(root), k) == LastBinding(Steps(Iter(root)), k)
  {
    var nodes := Iter(root);
    var steps := Steps(nodes);
    FoldFails([], steps);
    if SomeFails(nodes) {
      var i :| 0 <= i < |nodes| && StepOf(nodes[i]).Fail?;
      assert steps[i].Fail?;
    } else {
      forall i | 0 <= i < |steps| ensures !steps[i].Fail? {
        assert steps[i] == StepOf(nodes[i]);
      }
      FoldFind([], steps, k);
    }
  }

  /** Element `e` has an id naming key `k` and a label whose tokens are `tokens`. */
  predicate IdSource(e: Element, k: int, tokens: seq<string>) {
    "id" in e.attrs && IdPrefix <= e.attrs["id"] && ParseInt(e.attrs["id"][|IdPrefix|..]) == Some(k) &&
    LabelKey in e.attrs && tokens == Split(e.attrs[LabelKey], ' ')
  }

  /** The last binding of a key comes from an element whose id names the key and that has a label. */
  lemma BindingSource(nodes: seq<Element>, k: int)
    requires LastBinding(Steps(nodes), k).Some?
    ensures exists i :: 0 <= i < |nodes| && IdSource(nodes[i], k, LastBinding(Steps(nodes), k).value)
  {
    var steps := Steps(nodes);
    LastBindingIsLast(steps, k);
    var i :| 0 <= i < |steps| && steps[i] == Bind(k, LastBinding(steps, k).value) &&
      forall j :: i < j < |steps| ==> !Binds(steps, j, k);
    assert steps[i] == StepOf(nodes[i]);
  }

  /** An element anywhere below the root that makes the reader raise empties the result. */
  lemma DescendantFails(root: Element, i: nat, x: Element)
    requires i < |root.children| && x in Iter(root.children[i]) && StepOf(x).Fail?
    ensures TextPVs(root) == []
  {
    IterVisitsDescendant(root, i, x);
    var n :| 0 <= n < |Iter(root)| && Iter(root)[n] == x;
    TextPVsMeaning(root, 0);
  }

  /** One turn of the reader's loop at position `i`. */
  lemma FoldNext(acc: seq<Entry>, steps: seq<Step>, i: nat)
    requires i < |steps|
    ensures Fold(acc, steps[i..]) == match steps[i]
      case Skip => Fold(acc, steps[i + 1..])
      case Bind(k, t) => Fold(Insert(acc, k, t), steps[i + 1..])
      case Fail => None
  {
    assert steps[i..][0] == steps[i] && steps[i..][1..] == steps[i + 1..];
  }

  /** One turn of the reader's loop at position `i`, case by case. */
  lemma FoldAt(acc: seq<Entry>, steps: seq<Step>, i: nat)
    requires i < |steps|
    ensures steps[i].Skip? ==> Fold(acc, steps[i..]) == Fold(acc, steps[i + 1..])
    ensures steps[i].Fail? ==> Fold(acc, steps[i..]) == None
    ensures steps[i].Bind? ==> Fold(acc, steps[i..]) == Fold(Insert(acc, steps[i].key, steps[i].tokens), steps[i + 1..])
  {
    FoldNext(acc, steps, i);
  }

  /** `get_text_PVs` on an already parsed document. */
  method GetTextPVs(root: Element) returns (pvs: seq<Entry>)
    ensures pvs == TextPVs(root)
  {
    var nodes := Iter(root);
    ghost var steps := Steps(nodes);
    var found: seq<Entry> := [];
    var i := 0;
    while i < |nodes|
      invariant 0 <= i <= |nodes|
      invariant Fold(found, steps[i..]) == Fold([], steps)
    {
      var elem := nodes[i];
      if "id" in elem.attrs && IdPrefix <= elem.attrs["id"] {
        var key := ParseInt(elem.attrs["id"][|IdPrefix|..]);
        if key.None? || LabelKey !in elem.attrs {
          assert steps[i] == StepOf(elem) == Fail;
          FoldAt(found, steps, i);
          return [];
        }
        var tokens := Split(elem.attrs[LabelKey], ' ');
        assert steps[i] == StepOf(elem) == Bind(key.value, tokens);
        FoldAt(found, steps, i);
        found := Insert(found, key.value, tokens);
      } else {
        assert steps[i] == StepOf(elem) == Skip;
        FoldAt(found, steps, i);
      }
      i := i + 1;
    }
    assert steps[i..] == [];
    pvs := found;
  }

  // ---------------------------------------------------------------- the panel

  /** The value mapping for entry `idx`: the mapped name and the id of the SVG element it drives. */
  function MappingRecord(idx: int): Value {
    Object([("mappedName", String(IntToString(idx))), ("svgId", String(IdPrefix + IntToString(idx)))])
  }

  /** The fields of a query that come before its id, the same for every entry. */
  const QueryHead: seq<(string, Value)> := [
    ("alias", String("")),
    ("aliasPattern", String("")),
    ("datasource", Object([("type", String(DatasourceType)), ("uid", String(DatasourceUid))])),
    ("functions", Array([])),
    ("hide", Bool(false)),
    ("operator", String("last"))]

  /** The fields of a query between its id and its PV, the same for every entry. */
  const QueryMiddle: seq<(string, Value)> := [
    ("regex", Bool(false)),
    ("stream", Bool(false)),
    ("strmCap", String("")),
    ("strmInt", String(""))]

  /** The archiver query for entry `idx`, its fields in the order the script writes them. */
  function TargetRecord(idx: int, target: string): Value {
    Object(QueryHead + ([("refId", String("E" + IntToString(idx)))] + (QueryMiddle + [("target", String(target))])))
  }

  /** The line the script appends to the helper code for entry `idx`: PV, unit and precision. */
  function MapValueCall(idx: int, tokens: seq<string>): string
    requires |tokens| >= 3
  {
    "\nmapValue(svgmap, '" + IntToString(idx) + "', '" + tokens[0] + "', '" + tokens[1] + "', " + tokens[2] + ");"
  }

  /** Every entry has the three tokens the loop indexes. */
  predicate Complete(pvs: seq<Entry>) {
    forall i :: 0 <= i < |pvs| ==> |pvs[i].1| >= 3
  }

  /** The position of the first entry with fewer than three tokens, or |pvs| when there is none. */
  function FirstShort(pvs: seq<Entry>): (n: nat)
    ensures n <= |pvs|
    ensures forall i :: 0 <= i < n ==> |pvs[i].1| >= 3
    ensures n < |pvs| ==> |pvs[n].1| < 3
  {
    if pvs == [] then 0
    else if |pvs[0].1| < 3 then 0
    else 1 + FirstShort(pvs[1..])
  }

  /** The value mappings of the entries, in order. */
  function Mappings(pvs: seq<Entry>): seq<Value> {
    if pvs == [] then [] else Mappings(pvs[..|pvs| - 1]) + [MappingRecord(pvs[|pvs| - 1].0)]
  }

  /** The queries of the entries, in order; each queries the entry's first token. */
  function Targets(pvs: seq<Entry>): seq<Value>
    requires Complete(pvs)
  {
    if pvs == [] then []
    else
      var last := pvs[|pvs| - 1];
      Targets(pvs[..|pvs| - 1]) + [TargetRecord(last.0, last.1[0])]
  }

  /** The `mapValue` calls of the entries, in order. */
  function Calls(pvs: seq<Entry>): string
    requires Complete(pvs)
  {
    if pvs == [] then ""
    else
      var last := pvs[|pvs| - 1];
      Calls(pvs[..|pvs| - 1]) + MapValueCall(last.0, last.1)
  }

  /** The template's `options` object, or a fresh empty one when it has none or it is not an object. */
  function Options(fields: seq<(string, Value)>): seq<(string, Value)> {
    match Get(fields, "options") case Some(Object(o)) => o case _ => []
  }

  /**
   * The template with the panel filled in: `options` receives the SVG text, the script and the
   * mappings; `targets` is replaced by the queries.
   */
  function Panel(fields: seq<(string, Value)>, svg: string, script: string, mappings: seq<Value>, targets: seq<Value>): seq<(string, Value)> {
    var filled := Put(Put(Put(Options(fields), "svgSource", String(svg)), "eventSource", String(script)), "svgMappings", Array(mappings));
    Put(Put(fields, "options", Object(filled)), "targets", Array(targets))
  }

  /** Why no panel is written. */
  datatype AssembleError =
    | IndexError(idx: int)  // the entry for `idx` has fewer than three tokens
    | TemplateNotObject     // the template's top level is not a JSON object

  /**
   * The panel the script writes for template `template`, SVG text `svg`, helper code `helper`
   * and dictionary `pvs`, or why it stops.
   */
  function AssembleSpec(template: Value, svg: string, helper: string, pvs: seq<Entry>): Result<Value, AssembleError> {
    var n := FirstShort(pvs);
    if n < |pvs| then Failure(IndexError(pvs[n].0))
    else match template
      case Object(fields) => Success(Object(Panel(fields, svg, helper + "\n\n" + Calls(pvs), Mappings(pvs), Targets(pvs))))
      case _ => Failure(TemplateNotObject)
  }

  /** Entries with three tokens each, one more at the end. */
  lemma CompleteSnoc(pre: seq<Entry>, e: Entry)
    requires Complete(pre) && |e.1| >= 3
    ensures Complete(pre + [e])
  {
    var next := pre + [e];
    forall j | 0 <= j < |next| ensures |next[j].1| >= 3 {
      if j < |pre| {
        assert next[j] == pre[j];
      }
    }
  }

  /** One more entry adds one mapping at the end. */
  lemma MappingsSnoc(pre: seq<Entry>, e: Entry)
    ensures Mappings(pre + [e]) == Mappings(pre) + [MappingRecord(e.0)]
  {
    assert (pre + [e])[..|pre|] == pre;
  }

  /** One more entry adds one query at the end. */
  lemma TargetsSnoc(pre: seq<Entry>, e: Entry)
    requires Complete(pre) && |e.1| >= 3
    ensures Complete(pre + [e])
    ensures Targets(pre + [e]) == Targets(pre) + [TargetRecord(e.0, e.1[0])]
  {
    CompleteSnoc(pre, e);
    assert (pre + [e])[..|pre|] == pre;
  }

  /** One more entry appends one call to the script. */
  lemma CallsSnoc(head: string, pre: seq<Entry>, e: Entry)
    requires Complete(pre) && |e.1| >= 3
    ensures Complete(pre + [e])
    ensures head + Calls(pre + [e]) == head + Calls(pre) + MapValueCall(e.0, e.1)
  {
    CompleteSnoc(pre, e);
    var next := pre + [e];
    assert next[..|pre|] == pre;
    var before, call := Calls(pre), MapValueCall(e.0, e.1);
    assert Calls(next) == before + call;
    assert head + (before + call) == head + before + call;
  }

  /** The first short entry is at or after `i` and `i` is not short: it is after `i`. */
  lemma FirstShortPast(pvs: seq<Entry>, i: nat)
    requires i < |pvs| && FirstShort(pvs) >= i && |pvs[i].1| >= 3
    ensures FirstShort(pvs) >= i + 1
  {
  }

  /** The first short entry is at or after `i` and `i` is short: it is `i`. */
  lemma FirstShortAt(pvs: seq<Entry>, i: nat)
    requires i < |pvs| && FirstShort(pvs) >= i && |pvs[i].1| < 3
    ensures FirstShort(pvs) == i
  {
  }

  /** What one complete entry adds to the mappings, the queries and the script. */
  lemma CollectStep(head: string, pvs: seq<Entry>, i: nat)
    requires i < |pvs| && Complete(pvs[..i]) && |pvs[i].1| >= 3
    ensures Complete(pvs[..i + 1])
    ensures Mappings(pvs[..i + 1]) == Mappings(pvs[..i]) + [MappingRecord(pvs[i].0)]
    ensures Targets(pvs[..i + 1]) == Targets(pvs[..i]) + [TargetRecord(pvs[i].0, pvs[i].1[0])]
    ensures head + Calls(pvs[..i + 1]) == head + Calls(pvs[..i]) + MapValueCall(pvs[i].0, pvs[i].1)
  {
    assert pvs[..i + 1] == pvs[..i] + [pvs[i]];
    MappingsSnoc(pvs[..i], pvs[i]);
    TargetsSnoc(pvs[..i], pvs[i]);
    CallsSnoc(head, pvs[..i], pvs[i]);
  }

  /** The loop over the dictionary: the mappings, the queries and the script, or the IndexError. */
  method CollectEntries(helper: string, pvs: seq<Entry>) returns (r: Result<(seq<Value>, seq<Value>, string), AssembleError>)
    ensures FirstShort(pvs) < |pvs| ==> r == Failure(IndexError(pvs[FirstShort(pvs)].0))
    ensures FirstShort(pvs) == |pvs| ==> r == Success((Mappings(pvs), Targets(pvs), helper + "\n\n" + Calls(pvs)))
  {
    var script := helper + "\n\n";
    var mappings: seq<Value> := [];
    var targets: seq<Value> := [];
    var i := 0;
    while i < |pvs|
      invariant 0 <= i <= |pvs| && Complete(pvs[..i])
      invariant mappings == Mappings(pvs[..i]) && targets == Targets(pvs[..i])
      invariant script == helper + "\n\n" + Calls(pvs[..i])
      invariant FirstShort(pvs) >= i
    {
      var (idx, tokens) := pvs[i];
      mappings := mappings + [MappingRecord(idx)];
      if |tokens| < 1 {
        FirstShortAt(pvs, i);
        return Failure(IndexError(idx));
      }
      targets := targets + [TargetRecord(idx, tokens[0])];
      if |tokens| < 3 {
        FirstShortAt(pvs, i);
        return Failure(IndexError(idx));
      }
      CollectStep(helper + "\n\n", pvs, i);
      FirstShortPast(pvs, i);
      script := script + MapValueCall(idx, tokens);
      i := i + 1;
    }
    assert pvs[..i] == pvs;
    r := Success((mappings, targets, script));
  }

  /** The assignments into the template once the loop is through. */
  method FillTemplate(fields: seq<(string, Value)>, svg: string, script: string, mappings: seq<Value>, targets: seq<Value>)
    returns (data: seq<(string, Value)>)
    ensures data == Panel(fields, svg, script, mappings, targets)
  {
    data := fields;
    var options: seq<(string, Value)> := [];
    var current := Get(data, "options");
    if current.Some? && current.value.Object? {
      options := current.value.fields;
    }
    options := Put(options, "svgSource", String(svg));
    options := Put(options, "eventSource", String(script));
    options := Put(options, "svgMappings", Array(mappings));
    data := Put(data, "options", Object(options));
    data := Put(data, "targets", Array(targets));
  }

  /** The main part of the script, from the dictionary and the three texts to the panel. */
  method Assemble(template: Value, svg: string, helper: string, pvs: seq<Entry>) returns (r: Result<Value, AssembleError>)
    ensures r == AssembleSpec(template, svg, helper, pvs)
  {
    var collected := CollectEntries(helper, pvs);
    if collected.Failure? {
      return Failure(collected.error);
    }
    if !template.Object? {
      return Failure(TemplateNotObject);
    }
    var (mappings, targets, script) := collected.value;
    var data := FillTemplate(template.fields, svg, script, mappings, targets);
    r := Success(Object(data));
  }

  /**
   * The filled template holds the three values under `options` and the queries under
   * `targets`; every other top-level field, and every other field of an `options` object that
   * was already there, is as in the template.
   */
  lemma PanelGet(fields: seq<(string, Value)>, svg: string, script: string, mappings: seq<Value>, targets: seq<Value>, key: string, optionKey: string)
    ensures Get(Panel(fields, svg, script, mappings, targets), "targets") == Some(Array(targets))
    ensures Get(Panel(fields, svg, script, mappings, targets), "options").Some?
    ensures Get(Panel(fields, svg, script, mappings, targets), "options").value.Object?
    ensures var o := Get(Panel(fields, svg, script, mappings, targets), "options").value.fields;
      Get(o, "svgSource") == Some(String(svg)) && Get(o, "eventSource") == Some(String(script)) &&
      Get(o, "svgMappings") == Some(Array(mappings)) &&
      (optionKey !in ["svgSource", "eventSource", "svgMappings"] ==> Get(o, optionKey) == Get(Options(fields), optionKey))
    ensures key != "options" && key != "targets" ==> Get(Panel(fields, svg, script, mappings, targets), key) == Get(fields, key)
  {
    var o0 := Options(fields);
    var o1 := Put(o0, "svgSource", String(svg));
    var o2 := Put(o1, "eventSource", String(script));
    var o3 := Put(o2, "svgMappings", Array(mappings));
    PutGet(o0, "svgSource", String(svg), optionKey);
    PutGet(o1, "eventSource", String(script), optionKey);
    PutGet(o2, "svgMappings", Array(mappings), optionKey);
    PutGet(o1, "eventSource", String(script), "svgSource");
    PutGet(o2, "svgMappings", Array(mappings), "svgSource");
    PutGet(o2, "svgMappings", Array(mappings), "eventSource");
    var d1 := Put(fields, "options", Object(o3));
    PutGet(fields, "options", Object(o3), key);
    PutGet(d1, "targets", Array(targets), key);
    PutGet(d1, "targets", Array(targets), "options");
  }

  /** A template without repeated keys gives a panel without repeated keys. */
  lemma PanelUnique(fields: seq<(string, Value)>, svg: string, script: string, mappings: seq<Value>, targets: seq<Value>)
    requires UniqueKeys(fields)
    ensures UniqueKeys(Panel(fields, svg, script, mappings, targets))
  {
    var o0 := Options(fields);
    var o1 := Put(o0, "svgSource", String(svg));
    var o2 := Put(o1, "eventSource", String(script));
    var o3 := Put(o2, "svgMappings", Array(mappings));
    PutUnique(fields, "options", Object(o3));
    PutUnique(Put(fields, "options", Object(o3)), "targets", Array(targets));
  }

  /**
   * The script stops with an IndexError exactly when some entry has fewer than three tokens,
   * naming the first such entry; otherwise it fails only on a template that is not an object.
   */
  lemma AssembleOutcome(template: Value, svg: string, helper: string, pvs: seq<Entry>)
    ensures AssembleSpec(template, svg, helper, pvs).Failure? && AssembleSpec(template, svg, helper, pvs).error.IndexError? <==> !Complete(pvs)
    ensures AssembleSpec(template, svg, helper, pvs) == Failure(TemplateNotObject) <==> Complete(pvs) && !template.Object?
    ensures AssembleSpec(template, svg, helper, pvs).Failure? && AssembleSpec(template, svg, helper, pvs).error.IndexError? ==>
      exists n :: 0 <= n < |pvs| && |pvs[n].1| < 3 && Complete(pvs[..n]) && AssembleSpec(template, svg, helper, pvs).error.idx == pvs[n].0
  {
    var n := FirstShort(pvs);
    if n < |pvs| {
      assert Complete(pvs[..n]) by {
        forall j | 0 <= j < n ensures |pvs[..n][j].1| >= 3 {
          assert pvs[..n][j] == pvs[j];
        }
      }
    }
  }

  /** One mapping per entry, in the dictionary's order. */
  lemma {:induction false} MappingsAt(pvs: seq<Entry>, i: nat)
    requires i < |pvs|
    ensures |Mappings(pvs)| == |pvs| && Mappings(pvs)[i] == MappingRecord(pvs[i].0)
  {
    var pre := pvs[..|pvs| - 1];
    if i < |pre| {
      MappingsAt(pre, i);
    } else if pre != [] {
      MappingsAt(pre, 0);
    }
  }

  /** Dropping the last entry keeps the entries complete. */
  lemma CompleteInit(pvs: seq<Entry>)
    requires Complete(pvs) && pvs != []
    ensures Complete(pvs[..|pvs| - 1])
  {
    var pre := pvs[..|pvs| - 1];
    forall j | 0 <= j < |pre| ensures |pre[j].1| >= 3 {
      assert pre[j] == pvs[j];
    }
  }

  /** One query per entry, in the dictionary's order, each for the entry's first token. */
  lemma {:induction false} TargetsAt(pvs: seq<Entry>, i: nat)
    requires i < |pvs| && Complete(pvs)
    ensures |Targets(pvs)| == |pvs| && Targets(pvs)[i] == TargetRecord(pvs[i].0, pvs[i].1[0])
  {
    var pre, last := pvs[..|pvs| - 1], pvs[|pvs| - 1];
    CompleteInit(pvs);
    var r := TargetRecord(last.0, last.1[0]);
    assert Targets(pvs) == Targets(pre) + [r];
    if i < |pre| {
      TargetsAt(pre, i);
      assert pre[i] == pvs[i];
      assert Targets(pvs)[i] == Targets(pre)[i];
    } else {
      if pre != [] {
        TargetsAt(pre, 0);
      }
      assert Targets(pvs)[i] == r;
    }
  }

  /** The calls appear in the script in the dictionary's order: each follows those before it. */
  lemma {:induction false} CallsInOrder(pvs: seq<Entry>, n: nat)
    requires Complete(pvs) && n < |pvs|
    ensures Complete(pvs[..n]) && Calls(pvs[..n]) + MapValueCall(pvs[n].0, pvs[n].1) <= Calls(pvs)
  {
    var pre := pvs[..|pvs| - 1];
    assert Complete(pre) by {
      forall j | 0 <= j < |pre| ensures |pre[j].1| >= 3 {
        assert pre[j] == pvs[j];
      }
    }
    if n < |pre| {
      CallsInOrder(pre, n);
      assert pre[..n] == pvs[..n] && pre[n] == pvs[n];
    } else {
      assert pre == pvs[..n];
    }
  }

  /**
   * A mapping names the element its entry came from: the element with that id and a label is
   * read back under the entry's number, as is the mapped name.
   */
  lemma MappingNamesElement(idx: int, e: Element)
    requires "id" in e.attrs && Get(MappingRecord(idx).fields, "svgId") == Some(String(e.attrs["id"]))
    requires LabelKey in e.attrs
    ensures StepOf(e) == Bind(idx, Split(e.attrs[LabelKey], ' '))
    ensures Get(MappingRecord(idx).fields, "mappedName").Some? && Get(MappingRecord(idx).fields, "mappedName").value.String?
    ensures ParseInt(Get(MappingRecord(idx).fields, "mappedName").value.s) == Some(idx)
  {
    var id := e.attrs["id"];
    assert id == IdPrefix + IntToString(idx);
    assert id[|IdPrefix|..] == IntToString(idx);
    ParseIntOfString(idx);
  }

  /** None of the fixed fields of a query is its id or its PV. */
  lemma QueryFixedKeys()
    ensures forall j :: 0 <= j < |QueryHead| ==> QueryHead[j].0 != "refId" && QueryHead[j].0 != "target"
    ensures forall j :: 0 <= j < |QueryMiddle| ==> QueryMiddle[j].0 != "refId" && QueryMiddle[j].0 != "target"
  {
    assert forall j :: 0 <= j < |QueryHead| ==> QueryHead[j].0[0] !in "rt";
    assert forall j :: 0 <= j < |QueryMiddle| ==> QueryMiddle[j].0[0] !in "t" && QueryMiddle[j].0[2] != 'f';
  }

  /** The query id of entry `idx`. */
  lemma TargetRefId(idx: int, target: string)
    ensures Get(TargetRecord(idx, target).fields, "refId") == Some(String("E" + IntToString(idx)))
  {
    QueryFixedKeys();
    GetPastHead(QueryHead, [("refId", String("E" + IntToString(idx)))] + (QueryMiddle + [("target", String(target))]), "refId");
  }

  /** The query of an entry asks the archiver for the PV it was given. */
  lemma TargetQueriesPv(idx: int, target: string)
    ensures Get(TargetRecord(idx, target).fields, "target") == Some(String(target))
  {
    QueryFixedKeys();
    var tail := QueryMiddle + [("target", String(target))];
    GetPastHead(QueryHead, [("refId", String("E" + IntToString(idx)))] + tail, "target");
    GetPastHead([("refId", String("E" + IntToString(idx)))], tail, "target");
    GetPastHead(QueryMiddle, [("target", String(target))], "target");
  }

  /** Distinct entries get distinct query ids. */
  lemma RefIdsDistinct(i: int, a: string, j: int, b: string)
    requires i != j
    ensures Get(TargetRecord(i, a).fields, "refId").Some? && Get(TargetRecord(j, b).fields, "refId").Some?
    ensures Get(TargetRecord(i, a).fields, "refId") != Get(TargetRecord(j, b).fields, "refId")
  {
    var ri, rj := "E" + IntToString(i), "E" + IntToString(j);
    TargetRefId(i, a);
    TargetRefId(j, b);
    assert ri[1..] == IntToString(i) && rj[1..] == IntToString(j);
    if ri == rj {
      IntToStringInjective(i, j);
    }
  }

  // ---------------------------------------------------------------- the output file name

  /** The last position of `c` in `s`, as `str.rfind`. */
  function LastIndexOf(s: string, c: char): (r: Option<nat>)
    ensures r.None? <==> c !in s
    ensures r.Some? ==> r.value < |s| && s[r.value] == c && c !in s[r.value + 1..]
  {
    if s == [] then None
    else if s[|s| - 1] == c then Some(|s| - 1)
    else
      var r := LastIndexOf(s[..|s| - 1], c);
      assert s == s[..|s| - 1] + [s[|s| - 1]];
      if r.Some? then
        assert s[r.value + 1..] == s[..|s| - 1][r.value + 1..] + [s[|s| - 1]];
        r
      else r
  }

  /** `PurePath.name`: the last component of a path written with `/`. */
  function BaseName(path: string): (r: string)
    ensures '/' !in r && |r| <= |path| && r == path[|path| - |r|..]
    ensures '/' !in path ==> r == path
  {
    match LastIndexOf(path, '/')
    case None => path
    case Some(i) => path[i + 1..]
  }

  /**
   * `PurePath.stem`: the name without its last suffix, where a suffix starts at a dot that is
   * neither the first nor the last character.
   */
  function Stem(name: string): (r: string)
    ensures r == name || (0 < |r| < |name| - 1 && name[..|r|] == r && name[|r|] == '.' && '.' !in name[|r| + 1..])
    ensures forall i :: 0 < i < |name| - 1 && name[i] == '.' && '.' !in name[i + 1..] ==> r == name[..i]
  {
    match LastIndexOf(name, '.')
    case Some(j) =>
      forall i | 0 < i < |name| - 1 && name[i] == '.' && '.' !in name[i + 1..] ensures i == j {
        LastDotUnique(name, i, j);
      }
      if 0 < j < |name| - 1 then name[..j] else name
    case None => name
  }

  /** Two positions of `c` each with no `c` after it are the same position. */
  lemma LastDotUnique(s: string, i: nat, j: nat)
    requires i < |s| && j < |s| && s[i] == s[j]
    requires s[i] !in s[i + 1..] && s[j] !in s[j + 1..]
    ensures i == j
  {
  }

  /** `Path("json") / (svg_path.stem + ".json")`. */
  function OutputPath(svgPath: string): string {
    "json/" + Stem(BaseName(svgPath)) + ".json"
  }

  /** Characters appended after the last `c` do not move it. */
  lemma {:induction false} LastIndexOfAppend(s: string, t: string, c: char)
    requires c !in t
    ensures LastIndexOf(s + t, c) == LastIndexOf(s, c)
    decreases |t|
  {
    if t == [] {
      assert s + t == s;
    } else {
      var u := s + t;
      assert u[|u| - 1] == t[|t| - 1];
      assert u[..|u| - 1] == s + t[..|t| - 1];
      LastIndexOfAppend(s, t[..|t| - 1], c);
    }
  }

  /** The name of a file in a directory is the file's own name. */
  lemma BaseNameInDir(dir: string, file: string)
    requires '/' !in file
    requires dir == [] || dir[|dir| - 1] == '/'
    ensures BaseName(dir + file) == file
  {
    if dir == [] {
      assert dir + file == file;
    } else {
      LastIndexOfAppend(dir, file, '/');
      assert (dir + file)[|dir|..] == file;
    }
  }

  /** The stem of `x.svg` is `x`, whatever dots `x` holds. */
  lemma StemOfSvg(name: string)
    requires name != []
    ensures Stem(name + ".svg") == name
  {
    var dotted := name + ".";
    assert name + ".svg" == dotted + "svg";
    LastIndexOfAppend(dotted, "svg", '.');
    assert LastIndexOf(dotted, '.') == Some(|name|);
    assert dotted[..|name|] == name;
  }

  /** `x.svg` in any directory becomes `json/x.json`. */
  lemma OutputPathOfSvg(dir: string, name: string)
    requires name != [] && '/' !in name
    requires dir == [] || dir[|dir| - 1] == '/'
    ensures OutputPath(dir + name + ".svg") == "json/" + name + ".json"
  {
    assert dir + name + ".svg" == dir + (name + ".svg");
    assert '/' !in name + ".svg";
    BaseNameInDir(dir, name + ".svg");
    StemOfSvg(name);
  }

  // ---------------------------------------------------------------- scenarios

  /** An id starting with `text-` whose element has no label empties the whole dictionary. */
  lemma UnlabelledTextEmpties()
    ensures TextPVs(Element("svg", map[], None, [Element("text", map["id" := "text-7"], Some("0.0"), [])])) == []
  {
    var child := Element("text", map["id" := "text-7"], Some("0.0"), []);
    assert |LabelKey| == 50;
    assert LabelKey !in child.attrs;
    assert StepOf(child).Fail?;
    DescendantFails(Element("svg", map[], None, [child]), 0, child);
  }

  /** Two spaces in a row give an empty token: splitting is at every single space. */
  lemma SplitKeepsEmptyTokens()
    ensures Split("PV:A  mA", ' ') == ["PV:A", "", "mA"]
  {
    var parts := ["PV:A", "", "mA"];
    assert Join(parts, ' ') == "PV:A  mA";
    SplitJoin(parts, ' ');
  }
}
