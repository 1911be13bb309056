/** What acceptance by the plist reader implies, and the printer it inverts. */
module PlistPrint {
  import opened Bytes
  import opened Plist
  import Decimal

  // -------------------------------------------------------------------------- bounds

  function Depth(x: Xml): nat {
    if x.Element? then 1 + DepthOf(x.content) else 0
  }

  function DepthOf(content: seq<Xml>): nat {
    if content == [] then 0
    else
      var first, rest := Depth(content[0]), DepthOf(content[1..]);
      if first > rest then first else rest
  }

  predicate UniqueKeys(entries: seq<Pair>) {
    forall i, j | 0 <= i < j < |entries| :: entries[i].key != entries[j].key
  }

  /** Keys are unique in every dictionary and every integer fits 64 bits. */
  predicate Proper(v: Value) {
    match v
    case Int(n) => n <= MAX_U64
    case Arr(items) => forall i | 0 <= i < |items| :: Proper(items[i])
    case Dict(entries) => UniqueKeys(entries) && forall i | 0 <= i < |entries| :: Proper(entries[i].value)
    case _ => true
  }

  predicate ProperChildren(children: seq<Child>) {
    forall i | 0 <= i < |children| :: Proper(children[i].value)
  }

  lemma {:induction false} PairsProper(children: seq<Child>)
    requires ProperChildren(children) && Pairs(children).Some?
    ensures var entries := Pairs(children).value;
            UniqueKeys(entries) && forall i | 0 <= i < |entries| :: Proper(entries[i].value)
    decreases |children|
  {
    if children != [] {
      PairsProper(children[..|children| - 2]);
    }
  }

  lemma CloseProper(tag: string, children: seq<Child>, text: string)
    requires ProperChildren(children) && Close(tag, children, text).Some?
    ensures Proper(Close(tag, children, text).value)
  {
    hide Strip, Decimal.Parse, Decimal.IsCanonical;
    if tag == "dict" {
      PairsProper(children);
    }
  }

  lemma {:induction false} MeaningBounds(x: Xml, depth: nat, parent: string)
    requires x.Element? && Meaning(x, depth, parent).Some?
    ensures depth + Depth(x) <= MAX_DEPTH && Proper(Meaning(x, depth, parent).value)
    decreases x
  {
    hide Close;
    ContentBounds(x.content, depth + 1, x.name);
    CloseProper(x.name, MeaningOf(x.content, depth + 1, x.name).value, TextOf(x.content));
  }

  lemma {:induction false} ContentBounds(content: seq<Xml>, depth: nat, parent: string)
    requires depth <= MAX_DEPTH && MeaningOf(content, depth, parent).Some?
    ensures depth + DepthOf(content) <= MAX_DEPTH && ProperChildren(MeaningOf(content, depth, parent).value)
    decreases content
  {
    hide Meaning;
    if content != [] {
      if content[0].Element? {
        MeaningBounds(content[0], depth, parent);
      }
      ContentBounds(content[1..], depth, parent);
    }
  }

  lemma {:induction false} TopBounds(forest: seq<Xml>, roots: seq<Value>)
    requires MeaningOfTop(forest, roots).Some?
    requires forall i | 0 <= i < |roots| :: Proper(roots[i])
    ensures DepthOf(forest) <= MAX_DEPTH
    ensures var all := MeaningOfTop(forest, roots).value; forall i | 0 <= i < |all| :: Proper(all[i])
    decreases forest
  {
    hide Meaning, Strip;
    if forest != [] {
      if forest[0].Element? {
        MeaningBounds(forest[0], 0, "");
        TopBounds(forest[1..], roots + [Meaning(forest[0], 0, "").value]);
      } else {
        TopBounds(forest[1..], roots);
      }
    }
  }

  /** Accepting a stream bounds its depth and its nodes and makes every dictionary's keys unique. */
  lemma AcceptanceBounds(forest: seq<Xml>)
    requires Parse(EventsOf(forest)).Some?
    ensures DepthOf(forest) <= MAX_DEPTH && NodesOf(forest) <= MAX_NODES
    ensures Proper(Parse(EventsOf(forest)).value)
  {
    MachineComputesMeaning(forest);
    TopBounds(forest, []);
  }

  // ------------------------------------------------------------------------ printing

  function TagOf(v: Value): string {
    match v
    case Str(_) => "string"
    case Int(_) => "integer"
    case Bool(b) => if b then "true" else "false"
    case Arr(_) => "array"
    case Dict(_) => "dict"
  }

  function Print(v: Value): (x: Xml)
    ensures x.Element? && x.name == TagOf(v)
  {
    match v
    case Str(s) => Element("string", map[], [Text(s)])
    case Int(n) => Element("integer", map[], [Text(Decimal.Print(n))])
    case Bool(b) => Element(if b then "true" else "false", map[], [])
    case Arr(items) => Element("array", map[], PrintItems(items))
    case Dict(entries) => Element("dict", map[], PrintEntries(entries))
  }

  function PrintItems(items: seq<Value>): seq<Xml> {
    if items == [] then [] else PrintItems(items[..|items| - 1]) + [Print(items[|items| - 1])]
  }

  function PrintKey(key: string): Xml { Element("key", map[], [Text(key)]) }

  function PrintEntries(entries: seq<Pair>): seq<Xml> {
    if entries == [] then []
    else
      var last := entries[|entries| - 1];
      PrintEntries(entries[..|entries| - 1]) + [PrintKey(last.key), Print(last.value)]
  }

  function PrintDocument(v: Value): seq<Xml> {
    [Element("plist", map["version" := "1.0"], [Print(v)])]
  }

  /** The value can stand under depth open elements: nesting, integers and keys are within bounds. */
  predicate Fits(v: Value, depth: nat) {
    && depth + 1 <= MAX_DEPTH
    && match v
       case Int(n) => n <= MAX_U64
       case Arr(items) => forall i | 0 <= i < |items| :: Fits(items[i], depth + 1)
       case Dict(entries) =>
         && UniqueKeys(entries)
         && (entries != [] ==> depth + 2 <= MAX_DEPTH)
         && forall i | 0 <= i < |entries| :: Fits(entries[i].value, depth + 1)
       case _ => true
  }

  predicate InBounds(v: Value) {
    v.Dict? && Fits(v, 1) && 1 + Nodes(Print(v)) <= MAX_NODES
  }

  lemma {:induction false} MeaningOfAppend(a: seq<Xml>, b: seq<Xml>, depth: nat, parent: string)
    ensures MeaningOf(a + b, depth, parent) == Joined(MeaningOf(a, depth, parent), MeaningOf(b, depth, parent))
    decreases |a|
  {
    hide MeaningOf, Meaning, FirstChild, Joined;
    var mb := MeaningOf(b, depth, parent);
    if a == [] {
      assert a + b == b;
      NoMeaning(depth, parent);
      JoinedAssociates(None, None, mb);
    } else {
      assert (a + b)[1..] == a[1..] + b;
      MeaningOfAppend(a[1..], b, depth, parent);
      MeaningOfFirst(a, depth, parent);
      MeaningOfFirst(a + b, depth, parent);
      JoinedAssociates(FirstChild(a[0], depth, parent), MeaningOf(a[1..], depth, parent), mb);
    }
  }

  lemma {:induction false} TextOfAppend(a: seq<Xml>, b: seq<Xml>)
    ensures TextOf(a + b) == TextOf(a) + TextOf(b)
    decreases |a|
  {
    if a == [] {
      assert a + b == b;
    } else {
      assert (a + b)[1..] == a[1..] + b;
      TextOfAppend(a[1..], b);
    }
  }

  lemma {:induction false} NodesOfAppend(a: seq<Xml>, b: seq<Xml>)
    ensures NodesOf(a + b) == NodesOf(a) + NodesOf(b)
    decreases |a|
  {
    if a == [] {
      assert a + b == b;
    } else {
      assert (a + b)[1..] == a[1..] + b;
      NodesOfAppend(a[1..], b);
    }
  }

  lemma One(x: Xml, depth: nat, parent: string)
    requires x.Element?
    ensures MeaningOf([x], depth, parent) ==
            match Meaning(x, depth, parent) case None => None case Some(v) => Some([Child(x.name, v)])
    ensures TextOf([x]) == "" && NodesOf([x]) == Nodes(x)
  {
    hide Meaning;
    assert [x][1..] == [];
    if Meaning(x, depth, parent).Some? {
      var c := Child(x.name, Meaning(x, depth, parent).value);
      assert [c] + [] == [c];
    }
  }

  lemma StripDigits(n: nat)
    ensures Strip(Decimal.Print(n)) == Decimal.Print(n)
  {
    Decimal.ParsePrint(n);
  }

  /** A printed integer is read back exactly when it fits 64 bits. */
  lemma IntegerMeaning(n: nat)
    ensures Close("integer", [], Decimal.Print(n)) == if n <= MAX_U64 then Some(Int(n)) else None
  {
    hide Strip, Decimal.Print, Decimal.Parse, Decimal.IsCanonical;
    StripDigits(n);
    Decimal.ParsePrint(n);
    Decimal.PrintLength(n, 20);
    TwentyDigits();
  }

  lemma TwentyDigits()
    ensures MAX_U64 < Decimal.Pow10(20)
  {
    assert Decimal.Pow10(5) == 100_000;
    assert Decimal.Pow10(10) == 100_000 * Decimal.Pow10(5);
    assert Decimal.Pow10(15) == 100_000 * Decimal.Pow10(10);
    assert Decimal.Pow10(20) == 100_000 * Decimal.Pow10(15);
  }

  lemma ScalarMeaning(tag: string, text: string, depth: nat, parent: string)
    requires tag in {"string", "key", "integer"} && depth > 0 && parent in CONTAINERS
    ensures Meaning(Element(tag, map[], [Text(text)]), depth, parent) ==
            if depth + 1 <= MAX_DEPTH then Close(tag, [], text) else None
  {
    hide Close;
    var x := Element(tag, map[], [Text(text)]);
    assert [Text(text)][1..] == [];
    assert TextOf([Text(text)]) == text + "" == text;
    assert MeaningOf([Text(text)], depth + 1, tag) == MeaningOf([], depth + 1, tag) == Some([]);
  }

  /** The children a printed dictionary has. */
  function EntryChildren(entries: seq<Pair>): (c: seq<Child>)
    ensures |c| == 2 * |entries|
  {
    if entries == [] then []
    else
      var last := entries[|entries| - 1];
      EntryChildren(entries[..|entries| - 1]) + [Child("key", Str(last.key)), Child(TagOf(last.value), last.value)]
  }

  lemma ValueTag(v: Value)
    ensures TagOf(v) != "key" && TagOf(v) != "plist" && (TagOf(v) == "dict" <==> v.Dict?)
    ensures TagOf(v) in TAGS && (TagOf(v) in CONTAINERS <==> v.Arr? || v.Dict?)
  {
    assert "key"[0] == 'k' && "plist"[0] == 'p' && "dict"[0] == 'd' && "string"[0] == 's' && "integer"[0] == 'i';
    assert "true"[0] == 't' && "false"[0] == 'f' && "array"[0] == 'a';
  }

  lemma {:induction false} PairsOfEntries(entries: seq<Pair>)
    ensures Pairs(EntryChildren(entries)) == if UniqueKeys(entries) then Some(entries) else None
    decreases |entries|
  {
    hide TagOf, Pairs, UniqueKeys, HasKey;
    if entries == [] {
      NoPairs();
    } else {
      var front, last := entries[..|entries| - 1], entries[|entries| - 1];
      ValueTag(last.value);
      PairsOfEntries(front);
      PairsStep(EntryChildren(front), Child("key", Str(last.key)), Child(TagOf(last.value), last.value));
      assert entries == front + [last];
      UniqueStep(front, last);
    }
  }

  lemma NoPairs()
    ensures Pairs([]) == Some([]) && UniqueKeys([])
  {
  }

  lemma PairsStep(children: seq<Child>, key: Child, item: Child)
    requires key.tag == "key" && key.value.Str? && item.tag != "key"
    ensures Pairs(children + [key, item]) ==
            match Pairs(children)
            case None => None
            case Some(front) =>
              if HasKey(front, key.value.s) then None else Some(front + [Pair(key.value.s, item.value)])
  {
    var all := children + [key, item];
    assert all[..|all| - 2] == children;
  }

  lemma UniqueStep(front: seq<Pair>, last: Pair)
    ensures UniqueKeys(front + [last]) <==> UniqueKeys(front) && !HasKey(front, last.key)
  {
    var entries := front + [last];
    assert entries[|front|] == last && forall i | 0 <= i < |front| :: entries[i] == front[i];
  }

  /** What bounds a value, by its outermost constructor. */
  lemma ScalarFits(v: Value, depth: nat)
    requires v.Str? || v.Int? || v.Bool?
    ensures Fits(v, depth) <==> depth + 1 <= MAX_DEPTH && (v.Int? ==> v.n <= MAX_U64)
  {
  }

  predicate AllFit(items: seq<Value>, depth: nat) { forall i | 0 <= i < |items| :: Fits(items[i], depth) }

  predicate EntriesFit(entries: seq<Pair>, depth: nat) {
    forall i | 0 <= i < |entries| :: Fits(entries[i].value, depth)
  }

  lemma ArrayFits(items: seq<Value>, depth: nat)
    ensures Fits(Arr(items), depth) <==> depth + 1 <= MAX_DEPTH && AllFit(items, depth + 1)
  {
  }

  lemma DictFits(entries: seq<Pair>, depth: nat)
    ensures Fits(Dict(entries), depth) <==>
              && depth + 1 <= MAX_DEPTH && UniqueKeys(entries) && (entries != [] ==> depth + 2 <= MAX_DEPTH)
              && EntriesFit(entries, depth + 1)
  {
  }

  lemma {:induction false} PrintMeaning(v: Value, depth: nat, parent: string)
    requires depth > 0 && parent in CONTAINERS
    ensures Meaning(Print(v), depth, parent) == if Fits(v, depth) then Some(v) else None
    decreases v
  {
    hide Meaning, Close, MayOpen, Strip, PrintItems, PrintEntries, TagOf, ItemChildren, EntryChildren;
    hide Fits, AllFit, EntriesFit, UniqueKeys;
    match v {
      case Str(s) =>
        ScalarMeaning("string", s, depth, parent);
        PlainText(s);
        ScalarFits(v, depth);
      case Int(n) =>
        ScalarMeaning("integer", Decimal.Print(n), depth, parent);
        IntegerMeaning(n);
        ScalarFits(v, depth);
      case Bool(b) =>
        ElementMeaning(if b then "true" else "false", [], depth, parent);
        CloseBool(b);
        ScalarFits(v, depth);
      case Arr(items) =>
        ElementMeaning("array", PrintItems(items), depth, parent);
        ItemsMeaning(items, depth + 1);
        NoText(items, []);
        CloseArray(items);
        ArrayFits(items, depth);
      case Dict(entries) =>
        ElementMeaning("dict", PrintEntries(entries), depth, parent);
        EntriesMeaning(entries, depth + 1);
        NoText([], entries);
        PairsOfEntries(entries);
        CloseDict(EntryChildren(entries));
        DictFits(entries, depth);
    }
  }

  lemma ElementMeaning(name: string, content: seq<Xml>, depth: nat, parent: string)
    requires name in TAGS && name != "plist" && depth > 0 && parent in CONTAINERS
    ensures Meaning(Element(name, map[], content), depth, parent) ==
            if depth + 1 > MAX_DEPTH then None
            else match MeaningOf(content, depth + 1, name)
                 case None => None
                 case Some(children) => Close(name, children, TextOf(content))
  {
    hide MeaningOf, Close, TextOf, MayOpen;
    OpenInside(Element(name, map[], content), depth, parent);
  }

  lemma PlainText(s: string)
    ensures Close("string", [], s) == Some(Str(s)) && Close("key", [], s) == Some(Str(s))
  {
  }

  lemma CloseBool(b: bool)
    ensures Close(if b then "true" else "false", [], "") == Some(Bool(b))
  {
  }

  lemma CloseArray(items: seq<Value>)
    ensures Close("array", ItemChildren(items), "") == Some(Arr(items))
  {
    forall i | 0 <= i < |items| ensures ItemChildren(items)[i].tag != "key" { ValueTag(items[i]); }
    assert Values(ItemChildren(items)) == items;
  }

  lemma CloseDict(children: seq<Child>)
    ensures Close("dict", children, "") == match Pairs(children) case None => None case Some(e) => Some(Dict(e))
  {
  }

  /** Inside a container every attribute-free element but plist may open, down to the depth limit. */
  lemma OpenInside(x: Xml, depth: nat, parent: string)
    requires x.Element? && x.attrs == map[] && x.name in TAGS && x.name != "plist"
    requires depth > 0 && parent in CONTAINERS
    ensures MayOpen(x.name, x.attrs, depth, parent, false) <==> depth + 1 <= MAX_DEPTH
  {
  }

  function ItemChildren(items: seq<Value>): (c: seq<Child>)
    ensures |c| == |items| && forall i | 0 <= i < |items| :: c[i] == Child(TagOf(items[i]), items[i])
  {
    seq(|items|, i requires 0 <= i < |items| => Child(TagOf(items[i]), items[i]))
  }

  lemma {:induction false} ItemsMeaning(items: seq<Value>, depth: nat)
    requires depth > 0
    ensures MeaningOf(PrintItems(items), depth, "array") ==
            if AllFit(items, depth) then Some(ItemChildren(items)) else None
    decreases items
  {
    hide Meaning, MeaningOf, Fits, AllFit, Print, TagOf;
    if items == [] {
      NoMeaning(depth, "array");
      NoneToFit(depth);
    } else {
      var front, last := items[..|items| - 1], items[|items| - 1];
      assert items == front + [last];
      ItemsMeaning(front, depth);
      PrintMeaning(last, depth, "array");
      One(Print(last), depth, "array");
      MeaningOfAppend(PrintItems(front), [Print(last)], depth, "array");
      OneMoreFits(front, last, depth);
      assert ItemChildren(items) == ItemChildren(front) + [Child(TagOf(last), last)];
    }
  }

  lemma NoneToFit(depth: nat)
    ensures AllFit([], depth) && EntriesFit([], depth)
  {
  }

  lemma OneMoreFits(front: seq<Value>, last: Value, depth: nat)
    ensures AllFit(front + [last], depth) <==> AllFit(front, depth) && Fits(last, depth)
  {
    hide Fits;
    var items := front + [last];
    assert items[|front|] == last && forall i | 0 <= i < |front| :: items[i] == front[i];
  }

  lemma OneMoreEntryFits(front: seq<Pair>, last: Pair, depth: nat)
    ensures EntriesFit(front + [last], depth) <==> EntriesFit(front, depth) && Fits(last.value, depth)
  {
    hide Fits;
    var entries := front + [last];
    assert entries[|front|] == last && forall i | 0 <= i < |front| :: entries[i] == front[i];
  }

  lemma {:induction false} NoText(items: seq<Value>, entries: seq<Pair>)
    ensures TextOf(PrintItems(items)) == "" && TextOf(PrintEntries(entries)) == ""
    decreases |items| + |entries|
  {
    hide Print;
    if items != [] {
      var n := |items| - 1;
      NoText(items[..n], []);
      TextOfAppend(PrintItems(items[..n]), [Print(items[n])]);
      assert [Print(items[n])][1..] == [];
    }
    if entries != [] {
      var n := |entries| - 1;
      var both := [PrintKey(entries[n].key), Print(entries[n].value)];
      NoText([], entries[..n]);
      TextOfAppend(PrintEntries(entries[..n]), both);
      assert both[1..] == [Print(entries[n].value)] && both[1..][1..] == [];
    }
  }

  lemma EntryMeaning(entry: Pair, depth: nat)
    requires depth > 0
    requires Meaning(Print(entry.value), depth, "dict") == if Fits(entry.value, depth) then Some(entry.value) else None
    ensures MeaningOf([PrintKey(entry.key), Print(entry.value)], depth, "dict") ==
            if depth + 1 <= MAX_DEPTH && Fits(entry.value, depth)
            then Some([Child("key", Str(entry.key)), Child(TagOf(entry.value), entry.value)]) else None
  {
    hide Meaning, MeaningOf, Fits, Print, TagOf;
    KeyMeaning(entry.key, depth);
    One(PrintKey(entry.key), depth, "dict");
    One(Print(entry.value), depth, "dict");
    MeaningOfAppend([PrintKey(entry.key)], [Print(entry.value)], depth, "dict");
    assert [PrintKey(entry.key)] + [Print(entry.value)] == [PrintKey(entry.key), Print(entry.value)];
    var keyChild, valueChild := Child("key", Str(entry.key)), Child(TagOf(entry.value), entry.value);
    assert [keyChild] + [valueChild] == [keyChild, valueChild];
  }

  lemma {:induction false} EntriesMeaning(entries: seq<Pair>, depth: nat)
    requires depth > 0
    ensures MeaningOf(PrintEntries(entries), depth, "dict") ==
            if (entries != [] ==> depth + 1 <= MAX_DEPTH) && EntriesFit(entries, depth)
            then Some(EntryChildren(entries)) else None
    decreases entries
  {
    hide Meaning, MeaningOf, Fits, EntriesFit, Print, PrintKey, TagOf;
    if entries == [] {
      NoMeaning(depth, "dict");
      NoneToFit(depth);
    } else {
      var front, last := entries[..|entries| - 1], entries[|entries| - 1];
      assert entries == front + [last];
      EntriesMeaning(front, depth);
      PrintMeaning(last.value, depth, "dict");
      EntryMeaning(last, depth);
      OneMoreEntryFits(front, last, depth);
      MeaningOfAppend(PrintEntries(front), [PrintKey(last.key), Print(last.value)], depth, "dict");
    }
  }

  lemma KeyMeaning(key: string, depth: nat)
    requires depth > 0
    ensures Meaning(PrintKey(key), depth, "dict") == if depth + 1 <= MAX_DEPTH then Some(Str(key)) else None
  {
    ScalarMeaning("key", key, depth, "dict");
  }

  lemma RootMeaning(v: Value)
    ensures Meaning(PrintDocument(v)[0], 0, "") == if v.Dict? && Fits(v, 1) then Some(v) else None
  {
    hide Print, Fits;
    PrintMeaning(v, 1, "plist");
    One(Print(v), 1, "plist");
    assert Strip("") == "";
    assert TagOf(v) == "dict" <==> v.Dict?;
  }

  /** Printing a value and feeding its events to the handlers gives it back, exactly for the values in bounds. */
  lemma ParsePrint(v: Value)
    ensures Parse(EventsOf(PrintDocument(v))) == if InBounds(v) then Some(v) else None
  {
    hide Print, Fits, Meaning;
    var document := PrintDocument(v);
    MachineComputesMeaning(document);
    var root := document[0];
    RootMeaning(v);
    One(Print(v), 1, "plist");
    assert document[1..] == [];
    assert NodesOf(document) == 1 + NodesOf([Print(v)]);
    assert MeaningOfTop(document, []) ==
           match Meaning(root, 0, "") case None => None case Some(x) => MeaningOfTop([], [] + [x]);
  }

  // ------------------------------------------------------------- reprinting what was read

  function PrintedNodes(children: seq<Child>): nat {
    if children == [] then 0
    else PrintedNodes(children[..|children| - 1]) + Nodes(Print(children[|children| - 1].value))
  }

  lemma {:induction false} PrintedNodesAppend(a: seq<Child>, b: seq<Child>)
    ensures PrintedNodes(a + b) == PrintedNodes(a) + PrintedNodes(b)
    decreases |b|
  {
    hide Print, Nodes;
    if b == [] {
      assert a + b == a;
    } else {
      assert (a + b)[..|a + b| - 1] == a + b[..|b| - 1];
      PrintedNodesAppend(a, b[..|b| - 1]);
    }
  }

  predicate FitChildren(children: seq<Child>, depth: nat) {
    && (forall i | 0 <= i < |children| :: Fits(children[i].value, depth))
    && (children != [] ==> depth + 1 <= MAX_DEPTH)
  }

  lemma {:induction false} PairsFit(children: seq<Child>, depth: nat)
    requires FitChildren(children, depth) && Pairs(children).Some?
    ensures var entries := Pairs(children).value;
            && UniqueKeys(entries)
            && (entries != [] ==> children != [])
            && (forall i | 0 <= i < |entries| :: Fits(entries[i].value, depth))
            && NodesOf(PrintEntries(entries)) == PrintedNodes(children)
    decreases |children|
  {
    hide Print, Fits, HasKey, UniqueKeys, PrintedNodes, NodesOf, PrintEntries;
    if children == [] {
      NoEntries();
    } else {
      var n := |children|;
      var front, last := children[..n - 2], children[n - 2..];
      PairsFit(front, depth);
      var entries, pair := Pairs(front).value, Pair(last[0].value.s, last[1].value);
      assert Pairs(children) == Some(entries + [pair]);
      UniqueStep(entries, pair);
      EntryNodes(entries, pair);
      assert children == front + last;
      PrintedNodesAppend(front, last);
      PairNodes(last[0], last[1]);
      assert last == [last[0], last[1]];
    }
  }

  lemma NoEntries()
    ensures UniqueKeys([]) && NodesOf(PrintEntries([])) == 0 && PrintedNodes([]) == 0
  {
  }

  lemma EntryNodes(entries: seq<Pair>, pair: Pair)
    ensures NodesOf(PrintEntries(entries + [pair])) == NodesOf(PrintEntries(entries)) + 1 + Nodes(Print(pair.value))
  {
    hide Print;
    var both := [PrintKey(pair.key), Print(pair.value)];
    assert (entries + [pair])[..|entries|] == entries;
    KeyNodes(pair.key);
    One(Print(pair.value), 1, "dict");
    assert both[1..] == [Print(pair.value)];
    NodesOfAppend(PrintEntries(entries), both);
  }

  lemma PairNodes(key: Child, item: Child)
    requires key.value.Str?
    ensures PrintedNodes([key, item]) == 1 + Nodes(Print(item.value))
  {
    hide Print, Nodes;
    assert [key, item] == [key] + [item];
    PrintedNodesAppend([key], [item]);
    OnePrinted(key);
    OnePrinted(item);
    KeyNodes(key.value.s);
    assert key.value == Str(key.value.s);
  }

  lemma OnePrinted(c: Child)
    ensures PrintedNodes([c]) == Nodes(Print(c.value))
  {
    hide Print, Nodes;
    assert [c][..0] == [];
    assert PrintedNodes([]) == 0;
  }

  lemma KeyNodes(key: string)
    ensures Nodes(PrintKey(key)) == 1 && Nodes(Print(Str(key))) == 1 && NodesOf([Text(key)]) == 0
  {
    assert [Text(key)][1..] == [];
    assert NodesOf([Text(key)]) == 0;
  }

  lemma {:induction false} ItemsFit(children: seq<Child>, depth: nat)
    requires FitChildren(children, depth)
    ensures forall i | 0 <= i < |children| :: Fits(Values(children)[i], depth)
    ensures NodesOf(PrintItems(Values(children))) == PrintedNodes(children)
    decreases |children|
  {
    hide Print, Fits;
    if children != [] {
      var front, last := children[..|children| - 1], children[|children| - 1];
      ItemsFit(front, depth);
      var items := Values(children);
      assert items[..|items| - 1] == Values(front);
      One(Print(last.value), depth, "array");
      NodesOfAppend(PrintItems(Values(front)), [Print(last.value)]);
    }
  }

  lemma CloseFits(tag: string, children: seq<Child>, text: string, depth: nat)
    requires depth + 1 <= MAX_DEPTH && tag != "plist"
    requires FitChildren(children, depth + 1) && Close(tag, children, text).Some?
    ensures var v := Close(tag, children, text).value;
            Fits(v, depth) && Nodes(Print(v)) <= 1 + PrintedNodes(children)
  {
    hide Strip, Decimal.Parse, Decimal.IsCanonical, Decimal.Print;
    var v := Close(tag, children, text).value;
    if tag == "dict" {
      PairsFit(children, depth + 1);
    } else if tag == "array" {
      ItemsFit(children, depth + 1);
    } else {
      match v {
        case Str(s) => KeyNodes(s);
        case Int(n) => KeyNodes(Decimal.Print(n));
        case Bool(_) => assert NodesOf([]) == 0;
      }
    }
  }

  lemma {:induction false} MeaningFits(x: Xml, depth: nat, parent: string)
    requires x.Element? && depth > 0 && Meaning(x, depth, parent).Some?
    ensures var v := Meaning(x, depth, parent).value;
            Fits(v, depth) && Nodes(Print(v)) <= Nodes(x)
    decreases x
  {
    hide Close, Fits, Print;
    ContentFits(x.content, depth + 1, x.name);
    CloseFits(x.name, MeaningOf(x.content, depth + 1, x.name).value, TextOf(x.content), depth);
  }

  lemma {:induction false} ContentFits(content: seq<Xml>, depth: nat, parent: string)
    requires depth > 0 && MeaningOf(content, depth, parent).Some?
    ensures var children := MeaningOf(content, depth, parent).value;
            FitChildren(children, depth) && PrintedNodes(children) <= NodesOf(content)
    decreases content
  {
    hide Meaning, Print;
    if content != [] {
      ContentFits(content[1..], depth, parent);
      if content[0].Element? {
        MeaningFits(content[0], depth, parent);
        var first := Child(content[0].name, Meaning(content[0], depth, parent).value);
        PrintedNodesAppend([first], MeaningOf(content[1..], depth, parent).value);
        assert [first][..0] == [];
      }
    }
  }

  /** Every accepted document can be reprinted: the printed form is accepted and has the same value. */
  lemma ReprintAccepted(forest: seq<Xml>)
    requires Parse(EventsOf(forest)).Some?
    ensures var v := Parse(EventsOf(forest)).value;
            Parse(EventsOf(PrintDocument(v))) == Some(v)
  {
    MachineComputesMeaning(forest);
    var v := Parse(EventsOf(forest)).value;
    var root := RootOf(forest);
    ContentFits(root.content, 1, "plist");
    var children := MeaningOf(root.content, 1, "plist").value;
    assert children == [Child("dict", v)];
    DictChild(root.content, 1, "plist");
    assert PrintedNodes(children) == Nodes(Print(v)) by {
      assert children[..0] == [];
    }
    ParsePrint(v);
  }

  lemma {:induction false} RootOf(forest: seq<Xml>) returns (root: Xml)
    requires MeaningOfTop(forest, []).Some? && |MeaningOfTop(forest, []).value| == 1
    ensures root.Element? && root.name == "plist" && Nodes(root) <= NodesOf(forest)
    ensures Meaning(root, 0, "") == Some(MeaningOfTop(forest, []).value[0])
    decreases forest
  {
    hide Meaning, Strip;
    if forest[0].Element? {
      root := forest[0];
      assert [] + [Meaning(root, 0, "").value] == [Meaning(root, 0, "").value];
      RootsOnlyGrow(forest[1..], [Meaning(root, 0, "").value]);
      PlistAtTop(root);
    } else {
      root := RootOf(forest[1..]);
    }
  }

  lemma PlistAtTop(x: Xml)
    requires x.Element? && Meaning(x, 0, "").Some?
    ensures x.name == "plist"
  {
  }

  lemma {:induction false} RootsOnlyGrow(forest: seq<Xml>, roots: seq<Value>)
    requires MeaningOfTop(forest, roots).Some? && roots != []
    ensures MeaningOfTop(forest, roots) == Some(roots)
    decreases forest
  {
    hide Meaning, Strip;
    if forest != [] {
      RootsOnlyGrow(forest[1..], roots);
    }
  }

  /** A child tagged dict holds a dictionary. */
  lemma {:induction false} DictChild(content: seq<Xml>, depth: nat, parent: string)
    requires MeaningOf(content, depth, parent).Some?
    ensures forall c | c in MeaningOf(content, depth, parent).value && c.tag == "dict" :: c.value.Dict?
    decreases content
  {
    if content != [] {
      DictChild(content[1..], depth, parent);
    }
  }
}
