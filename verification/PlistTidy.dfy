/** Which documents the strict plist reader accepts: those that tidy up to the printed form of their value. */
module PlistTidy {
  import opened Bytes
  import opened Plist
  import opened PlistPrint
  import Decimal

  predicate Blank(s: string) { forall i | 0 <= i < |s| :: IsSpace(s[i]) }

  /**
   * An element without its comments and without the blank text between the elements of a container,
   * with the pieces of its text joined and an integer trimmed. Nothing else is taken away.
   */
  function Tidy(x: Xml): (y: Xml)
    requires x.Element?
    ensures y.Element? && y.name == x.name && y.attrs == x.attrs
    decreases x
  {
    Element(x.name, x.attrs, TidyAll(x.content) + TidyText(x.name, TextOf(x.content)))
  }

  function TidyAll(content: seq<Xml>): seq<Xml>
    decreases content
  {
    if content == [] then []
    else (if content[0].Element? then [Tidy(content[0])] else []) + TidyAll(content[1..])
  }

  function TidyText(name: string, text: string): seq<Xml> {
    if name in CONTAINERS then (if Blank(text) then [] else [Text(text)])
    else if name == "true" || name == "false" then (if text == "" then [] else [Text(text)])
    else if name == "integer" then [Text(Strip(text))]
    else [Text(text)]
  }

  // ---------------------------------------------------------------------- stripping

  lemma {:induction false} TrimLeftFacts(s: string)
    ensures TrimLeft(s) == "" <==> Blank(s)
    ensures TrimLeft(s) != "" ==> !IsSpace(TrimLeft(s)[0])
  {
    if s != "" {
      TrimLeftFacts(s[1..]);
      assert IsSpace(s[0]) ==> (Blank(s) <==> Blank(s[1..])) by {
        assert forall i | 1 <= i < |s| :: s[i] == s[1..][i - 1];
      }
    }
  }

  lemma {:induction false} TrimRightFacts(s: string)
    requires s != "" && !IsSpace(s[0])
    ensures var t := TrimRight(s); t != "" && t[0] == s[0] && !IsSpace(t[|t| - 1])
    decreases |s|
  {
    if IsSpace(s[|s| - 1]) {
      TrimRightFacts(s[..|s| - 1]);
    }
  }

  lemma StripBlank(s: string)
    ensures Strip(s) == "" <==> Blank(s)
    ensures Strip(Strip(s)) == Strip(s)
  {
    TrimLeftFacts(s);
    if TrimLeft(s) != "" {
      TrimRightFacts(TrimLeft(s));
    }
  }

  // --------------------------------------------------------- tidying keeps the meaning

  /** The text an element keeps closes it as all its text does. */
  lemma CloseTidied(name: string, children: seq<Child>, text: string)
    ensures Close(name, children, TextOf(TidyText(name, text))) == Close(name, children, text)
  {
    hide Strip, Decimal.Parse, Decimal.IsCanonical, Pairs, Blank;
    StripBlank(text);
    StripBlank("");
    OneText(text);
    OneText(Strip(text));
  }

  lemma OneText(text: string)
    ensures TextOf([Text(text)]) == text && TextOf([]) == ""
  {
    assert [Text(text)][1..] == [];
    assert text + "" == text;
  }

  lemma {:induction false} TidiedHasNoText(content: seq<Xml>)
    ensures TextOf(TidyAll(content)) == ""
  {
    hide Tidy;
    if content != [] {
      var rest := TidyAll(content[1..]);
      TidiedHasNoText(content[1..]);
      if content[0].Element? {
        var all := [Tidy(content[0])] + rest;
        assert TidyAll(content) == all && all[1..] == rest;
        assert TextOf(all) == "" + TextOf(rest);
      } else {
        assert TidyAll(content) == rest;
      }
    }
  }

  lemma TextHasNoMeaning(name: string, text: string, depth: nat, parent: string)
    ensures MeaningOf(TidyText(name, text), depth, parent) == Some([])
  {
    hide Strip, Blank;
    NoMeaning(depth, parent);
    assert forall t :: [Text(t)][1..] == [];
  }

  /** An element means what its tidied form means. */
  lemma {:induction false} TidyKeepsMeaning(x: Xml, depth: nat, parent: string)
    requires x.Element?
    ensures Meaning(Tidy(x), depth, parent) == Meaning(x, depth, parent)
    decreases x
  {
    hide Close, MayOpen, MeaningOf, TextOf, TidyAll, TidyText, Joined;
    var inner, kept := TidyAll(x.content), TidyText(x.name, TextOf(x.content));
    TidyAllKeepsMeaning(x.content, depth + 1, x.name);
    MeaningOfAppend(inner, kept, depth + 1, x.name);
    TextHasNoMeaning(x.name, TextOf(x.content), depth + 1, x.name);
    JoinedAssociates(None, None, MeaningOf(inner, depth + 1, x.name));
    TextOfAppend(inner, kept);
    TidiedHasNoText(x.content);
    assert "" + TextOf(kept) == TextOf(kept);
    if MeaningOf(x.content, depth + 1, x.name).Some? {
      CloseTidied(x.name, MeaningOf(x.content, depth + 1, x.name).value, TextOf(x.content));
    }
  }

  lemma {:induction false} TidyAllKeepsMeaning(content: seq<Xml>, depth: nat, parent: string)
    ensures MeaningOf(TidyAll(content), depth, parent) == MeaningOf(content, depth, parent)
    decreases content
  {
    hide Meaning, Tidy, Joined, FirstChild;
    if content != [] {
      var first, rest := content[0], content[1..];
      TidyAllKeepsMeaning(rest, depth, parent);
      MeaningOfFirst(content, depth, parent);
      if first.Element? {
        TidyKeepsMeaning(first, depth, parent);
        assert TidyAll(content) == [Tidy(first)] + TidyAll(rest);
        assert TidyAll(content)[1..] == TidyAll(rest);
        MeaningOfFirst(TidyAll(content), depth, parent);
        SameFirst(first, depth, parent);
      } else {
        assert TidyAll(content) == TidyAll(rest);
      }
    }
  }

  lemma SameFirst(first: Xml, depth: nat, parent: string)
    requires first.Element? && Meaning(Tidy(first), depth, parent) == Meaning(first, depth, parent)
    ensures FirstChild(Tidy(first), depth, parent) == FirstChild(first, depth, parent)
  {
    hide Meaning, Tidy;
  }

  // ------------------------------------------------- what is accepted is a printed value

  /** The elements that print these children. */
  function PrintChildren(children: seq<Child>): seq<Xml>
    requires forall i | 0 <= i < |children| :: children[i].tag == "key" ==> children[i].value.Str?
  {
    seq(|children|, i requires 0 <= i < |children| =>
      if children[i].tag == "key" then PrintKey(children[i].value.s) else Print(children[i].value))
  }

  /** An accepted element inside a document is, tidied, the printed form of its value. */
  lemma {:induction false} TidyIsPrint(x: Xml, depth: nat, parent: string)
    requires x.Element? && depth > 0 && Meaning(x, depth, parent).Some?
    ensures var v := Meaning(x, depth, parent).value;
            if x.name == "key" then v.Str? && Tidy(x) == PrintKey(v.s) else Tidy(x) == Print(v)
    decreases x
  {
    hide Close, TextOf, Print, TidyText, TidyAll, MeaningOf;
    TidyAllIsPrint(x.content, depth + 1, x.name);
    if x.name !in CONTAINERS {
      NothingInside(x.content, depth + 1, x.name);
    }
    PrintsClosed(x.name, MeaningOf(x.content, depth + 1, x.name).value, TextOf(x.content));
  }

  lemma {:induction false} TidyAllIsPrint(content: seq<Xml>, depth: nat, parent: string)
    requires depth > 0 && MeaningOf(content, depth, parent).Some?
    ensures var children := MeaningOf(content, depth, parent).value;
            && (forall i | 0 <= i < |children| :: children[i].tag == "key" ==> children[i].value.Str?)
            && TidyAll(content) == PrintChildren(children)
    decreases content
  {
    hide Meaning, MeaningOf, Tidy, TidyAll, Print, PrintKey, PrintChildren;
    TidyAllParts(content);
    if content == [] {
      NoMeaning(depth, parent);
      NoneArePrinted();
    } else {
      MeaningOfFirst(content, depth, parent);
      TidyAllIsPrint(content[1..], depth, parent);
      if content[0].Element? {
        TidyIsPrint(content[0], depth, parent);
        PrintChildrenCons(Child(content[0].name, Meaning(content[0], depth, parent).value),
                          MeaningOf(content[1..], depth, parent).value);
      } else {
        JoinedAssociates(None, None, MeaningOf(content[1..], depth, parent));
      }
    }
  }

  lemma TidyAllParts(content: seq<Xml>)
    ensures if content == [] then TidyAll(content) == []
            else if content[0].Element? then TidyAll(content) == [Tidy(content[0])] + TidyAll(content[1..])
            else TidyAll(content) == TidyAll(content[1..])
  {
    hide Tidy;
  }

  lemma PrintChildrenCons(first: Child, rest: seq<Child>)
    requires first.tag == "key" ==> first.value.Str?
    requires forall i | 0 <= i < |rest| :: rest[i].tag == "key" ==> rest[i].value.Str?
    ensures forall i | 0 <= i < |[first] + rest| :: ([first] + rest)[i].tag == "key" ==> ([first] + rest)[i].value.Str?
    ensures PrintChildren([first] + rest)
         == [if first.tag == "key" then PrintKey(first.value.s) else Print(first.value)] + PrintChildren(rest)
  {
    hide Print, PrintKey;
  }

  /** Only containers have elements in them. */
  lemma {:induction false} NothingInside(content: seq<Xml>, depth: nat, parent: string)
    requires depth > 0 && parent !in CONTAINERS && MeaningOf(content, depth, parent).Some?
    ensures MeaningOf(content, depth, parent) == Some([])
    decreases content
  {
    if content != [] {
      NothingInside(content[1..], depth, parent);
    }
  }

  /** What an element closes with prints as its name, its children and the text that is kept. */
  lemma PrintsClosed(name: string, children: seq<Child>, text: string)
    requires name in TAGS && name != "plist"
    requires forall i | 0 <= i < |children| :: children[i].tag == "key" ==> children[i].value.Str?
    requires name !in CONTAINERS ==> children == []
    requires Close(name, children, text).Some?
    ensures var v, content := Close(name, children, text).value, PrintChildren(children) + TidyText(name, text);
            if name == "key" then v.Str? && Element(name, map[], content) == PrintKey(v.s)
            else Element(name, map[], content) == Print(v)
  {
    hide Strip, Close, Decimal.Parse, Decimal.IsCanonical, Decimal.Print, Print, PrintKey, PrintChildren, TidyText;
    if name == "dict" {
      PrintsDict(children, text);
    } else if name == "array" {
      PrintsArray(children, text);
    } else {
      PrintsScalar(name, text);
    }
  }

  lemma PrintsDict(children: seq<Child>, text: string)
    requires forall i | 0 <= i < |children| :: children[i].tag == "key" ==> children[i].value.Str?
    requires Close("dict", children, text).Some?
    ensures Element("dict", map[], PrintChildren(children) + TidyText("dict", text))
         == Print(Close("dict", children, text).value)
  {
    hide Strip, Decimal.Parse, Decimal.IsCanonical, Decimal.Print, Pairs, PrintChildren, PrintEntries, Blank;
    StripBlank(text);
    PairsArePrinted(children);
    assert PrintChildren(children) + [] == PrintChildren(children);
  }

  lemma PrintsArray(children: seq<Child>, text: string)
    requires forall i | 0 <= i < |children| :: children[i].tag == "key" ==> children[i].value.Str?
    requires Close("array", children, text).Some?
    ensures Element("array", map[], PrintChildren(children) + TidyText("array", text))
         == Print(Close("array", children, text).value)
  {
    hide Strip, Decimal.Parse, Decimal.IsCanonical, Decimal.Print, PrintChildren, PrintItems, Blank;
    StripBlank(text);
    ItemsArePrinted(children);
    assert PrintChildren(children) + [] == PrintChildren(children);
  }

  lemma PrintsScalar(name: string, text: string)
    requires name in TAGS && name !in CONTAINERS && Close(name, [], text).Some?
    ensures var v, content := Close(name, [], text).value, PrintChildren([]) + TidyText(name, text);
            if name == "key" then v.Str? && Element(name, map[], content) == PrintKey(v.s)
            else Element(name, map[], content) == Print(v)
  {
    hide Strip, Blank, Decimal.Parse, Decimal.IsCanonical, Decimal.Print;
    hide Pairs, PrintChildren, PrintEntries, PrintItems;
    NoneArePrinted();
    if name == "integer" {
      Decimal.PrintParse(Strip(text));
    }
  }

  lemma NoneArePrinted()
    ensures PrintChildren([]) == []
  {
  }

  lemma {:induction false} PairsArePrinted(children: seq<Child>)
    requires forall i | 0 <= i < |children| :: children[i].tag == "key" ==> children[i].value.Str?
    requires Pairs(children).Some?
    ensures PrintChildren(children) == PrintEntries(Pairs(children).value)
    decreases |children|
  {
    hide Print, PrintKey, HasKey, PrintChildren, PrintEntries;
    if children == [] {
      NoneArePrinted();
      NoEntryPrinted();
    } else {
      var n := |children|;
      var front, key, item := children[..n - 2], children[n - 2], children[n - 1];
      PairsArePrinted(front);
      assert children == front + [key, item];
      PrintChildrenPair(front, key, item);
      PrintEntriesOneMore(Pairs(front).value, Pair(key.value.s, item.value));
    }
  }

  lemma NoEntryPrinted()
    ensures PrintEntries([]) == []
  {
  }

  lemma PrintEntriesOneMore(front: seq<Pair>, last: Pair)
    ensures PrintEntries(front + [last]) == PrintEntries(front) + [PrintKey(last.key), Print(last.value)]
  {
    hide Print, PrintKey;
    assert (front + [last])[..|front|] == front;
  }

  lemma PrintChildrenPair(front: seq<Child>, key: Child, item: Child)
    requires forall i | 0 <= i < |front| :: front[i].tag == "key" ==> front[i].value.Str?
    requires key.tag == "key" && key.value.Str? && item.tag != "key"
    ensures var all := front + [key, item];
            && (forall i | 0 <= i < |all| :: all[i].tag == "key" ==> all[i].value.Str?)
            && PrintChildren(all) == PrintChildren(front) + [PrintKey(key.value.s), Print(item.value)]
  {
    hide Print, PrintKey;
  }

  lemma {:induction false} ItemsArePrinted(children: seq<Child>)
    requires forall i | 0 <= i < |children| :: children[i].tag != "key"
    ensures PrintChildren(children) == PrintItems(Values(children))
    decreases |children|
  {
    hide Print, PrintKey;
    if children != [] {
      var n := |children|;
      var front := children[..n - 1];
      ItemsArePrinted(front);
      assert Values(children)[..n - 1] == Values(front);
      assert PrintChildren(children) == PrintChildren(front) + [Print(children[n - 1].value)];
    }
  }

  /** At the top, blank text and comments mean nothing, and other text is refused. */
  lemma {:induction false} TopMeansTidied(forest: seq<Xml>, roots: seq<Value>)
    ensures MeaningOfTop(forest, roots) ==
            if Blank(TextOf(forest)) then MeaningOfTop(TidyAll(forest), roots) else None
    decreases forest
  {
    hide Meaning, Tidy, Strip, Blank;
    NoneBlank();
    if forest != [] {
      var first, rest := forest[0], forest[1..];
      BlankParts(OwnText(first), TextOf(rest));
      ContentParts(forest);
      if first.Element? {
        var all := [Tidy(first)] + TidyAll(rest);
        assert TidyAll(forest) == all && all[1..] == TidyAll(rest);
        TidyKeepsMeaning(first, 0, "");
        if roots == [] && Meaning(first, 0, "").Some? {
          TopMeansTidied(rest, roots + [Meaning(first, 0, "").value]);
        }
      } else {
        StripBlank(OwnText(first));
        assert TidyAll(forest) == TidyAll(rest);
        TopMeansTidied(rest, roots);
      }
    }
  }

  lemma NoneBlank()
    ensures Blank("") && TextOf([]) == ""
  {
  }

  lemma BlankParts(a: string, b: string)
    ensures Blank(a + b) <==> Blank(a) && Blank(b)
  {
    var s := a + b;
    assert forall i | 0 <= i < |a| :: s[i] == a[i];
    assert forall i | 0 <= i < |b| :: s[|a| + i] == b[i];
  }

  /** Elements alone have one root exactly when there is one of them and it has a meaning. */
  lemma {:induction false} OneRoot(elements: seq<Xml>, v: Value)
    requires forall i | 0 <= i < |elements| :: elements[i].Element?
    ensures MeaningOfTop(elements, []) == Some([v]) <==>
              |elements| == 1 && Meaning(elements[0], 0, "") == Some(v)
  {
    hide Meaning;
    if elements != [] && Meaning(elements[0], 0, "").Some? {
      var w := Meaning(elements[0], 0, "").value;
      assert [] + [w] == [w];
      if |elements| == 1 {
        assert elements[1..] == [];
      } else {
        assert elements[1..][0] == elements[1];
      }
    }
  }

  lemma {:induction false} TidiedElements(content: seq<Xml>)
    ensures forall i | 0 <= i < |TidyAll(content)| :: TidyAll(content)[i].Element?
  {
    hide Tidy;
    if content != [] {
      TidiedElements(content[1..]);
    }
  }

  /** An accepted root is, tidied, the printed document of its value. */
  lemma RootIsPrint(x: Xml)
    requires x.Element? && Meaning(x, 0, "").Some?
    ensures var v := Meaning(x, 0, "").value;
            Tidy(x) == PrintDocument(v)[0] && v.Dict? && Fits(v, 1)
  {
    hide Meaning, Print, Fits, Blank, MeaningOf, TidyAll, TextOf, Strip;
    RootParts(x);
    var children, text := MeaningOf(x.content, 1, "plist").value, TextOf(x.content);
    TidyAllIsPrint(x.content, 1, "plist");
    ContentFits(x.content, 1, "plist");
    DictChild(x.content, 1, "plist");
    StripBlank(text);
    assert children == [children[0]] && children[0] in children;
    assert PrintChildren(children) == [Print(children[0].value)];
  }

  lemma RootParts(x: Xml)
    requires x.Element? && Meaning(x, 0, "").Some?
    ensures x.name == "plist" && x.attrs == map["version" := "1.0"] && MeaningOf(x.content, 1, "plist").Some?
    ensures var children := MeaningOf(x.content, 1, "plist").value;
            && |children| == 1 && children[0].tag == "dict" && Strip(TextOf(x.content)) == ""
            && Meaning(x, 0, "") == Some(children[0].value)
  {
    hide MeaningOf, TextOf, Strip;
  }

  lemma {:induction false} OnlyElement(content: seq<Xml>) returns (x: Xml)
    requires |TidyAll(content)| == 1
    ensures x.Element? && Tidy(x) == TidyAll(content)[0]
  {
    hide Tidy;
    if content[0].Element? {
      x := content[0];
    } else {
      assert TidyAll(content) == TidyAll(content[1..]);
      x := OnlyElement(content[1..]);
    }
  }

  lemma OneRootRead(forest: seq<Xml>, v: Value)
    ensures Parse(EventsOf(forest)) == Some(v)
            <==> NodesOf(forest) <= MAX_NODES && MeaningOfTop(forest, []) == Some([v])
  {
    hide MeaningOfTop, NodesOf;
    MachineComputesMeaning(forest);
    var roots := MeaningOfTop(forest, []);
    if roots.Some? && |roots.value| == 1 {
      assert roots.value == [roots.value[0]];
    }
  }

  /**
   * The reader returns a value for exactly the documents that tidy up to its printed form, with no
   * more than blank text beside the root, when the value and the nodes are within bounds.
   */
  lemma AcceptedIsPrinted(forest: seq<Xml>, v: Value)
    ensures Parse(EventsOf(forest)) == Some(v) <==>
              && v.Dict? && Fits(v, 1) && NodesOf(forest) <= MAX_NODES
              && Blank(TextOf(forest)) && TidyAll(forest) == PrintDocument(v)
  {
    hide Meaning, Print, Fits, Blank, Tidy, TidyAll, TextOf, NodesOf, MeaningOfTop, PrintDocument;
    OneRootRead(forest, v);
    TopMeansTidied(forest, []);
    TidiedElements(forest);
    OneRoot(TidyAll(forest), v);
    RootMeaning(v);
    OneDocument(v);
    if |TidyAll(forest)| == 1 {
      var root := OnlyElement(forest);
      TidyKeepsMeaning(root, 0, "");
      if Meaning(root, 0, "") == Some(v) {
        RootIsPrint(root);
        assert TidyAll(forest) == [TidyAll(forest)[0]];
      }
    }
  }

  lemma OneDocument(v: Value)
    ensures PrintDocument(v) == [PrintDocument(v)[0]] && PrintDocument(v)[0].Element?
  {
    hide Print;
  }
}
