/**
 The strict plist reader: an explicit-stack machine driven by the parser's start, text, end
 and comment events, and the recursive meaning of the tree it computes.
 */
module Plist {
  import opened Bytes
  import Decimal

  const MAX_DEPTH: nat := 16
  const MAX_NODES: nat := 4096

  /** Dictionaries keep the order in which their keys were inserted. */
  datatype Value = Str(s: string) | Int(n: nat) | Bool(b: bool) | Arr(items: seq<Value>) | Dict(entries: seq<Pair>)
  datatype Pair = Pair(key: string, value: Value)

  datatype Event = Start(name: string, attrs: map<string, string>) | End(name: string) | Chars(text: string) | Comment

  /** The tree a balanced event stream describes. */
  datatype Xml = Element(name: string, attrs: map<string, string>, content: seq<Xml>) | Text(text: string) | Note

  datatype Child = Child(tag: string, value: Value)
  datatype Frame = Frame(tag: string, children: seq<Child>, parts: seq<string>)
  datatype State = State(stack: seq<Frame>, roots: seq<Value>, count: nat)

  const CONTAINERS: set<string> := {"plist", "dict", "array"}
  const TAGS: set<string> := {"plist", "dict", "array", "key", "string", "integer", "true", "false"}

  // ------------------------------------------------------------------------ text

  /** str.isspace on one character. */
  predicate IsSpace(c: char) {
    || '\t' <= c <= '\r' || '\U{1c}' <= c <= ' ' || c == '\U{85}' || c == '\U{a0}' || c == '\U{1680}'
    || '\U{2000}' <= c <= '\U{200a}' || c in {'\U{2028}', '\U{2029}', '\U{202f}', '\U{205f}', '\U{3000}'}
  }

  /** The blank characters, one by one. */
  lemma Blanks(c: char)
    ensures IsSpace(c) <==>
              c as int in {0x09, 0x0A, 0x0B, 0x0C, 0x0D, 0x1C, 0x1D, 0x1E, 0x1F, 0x20, 0x85, 0xA0, 0x1680,
                           0x2000, 0x2001, 0x2002, 0x2003, 0x2004, 0x2005, 0x2006, 0x2007, 0x2008, 0x2009, 0x200A,
                           0x2028, 0x2029, 0x202F, 0x205F, 0x3000}
  {
  }

  function TrimLeft(s: string): string {
    if s != "" && IsSpace(s[0]) then TrimLeft(s[1..]) else s
  }

  function TrimRight(s: string): string {
    if s != "" && IsSpace(s[|s| - 1]) then TrimRight(s[..|s| - 1]) else s
  }

  /** str.strip() */
  function Strip(s: string): string { TrimRight(TrimLeft(s)) }

  function Join(parts: seq<string>): string {
    if parts == [] then "" else Join(parts[..|parts| - 1]) + parts[|parts| - 1]
  }

  lemma JoinAppend(parts: seq<string>, text: string)
    ensures Join(parts + [text]) == Join(parts) + text
  {
    assert (parts + [text])[..|parts|] == parts;
  }

  // ------------------------------------------------------------- what one element means

  predicate HasKey(entries: seq<Pair>, key: string) {
    exists i :: 0 <= i < |entries| && entries[i].key == key
  }

  /** The alternating key and value children of a dictionary, in order. */
  function Pairs(children: seq<Child>): (r: Option<seq<Pair>>) {
    if children == [] then Some([])
    else if |children| == 1 then None
    else
      var key, item := children[|children| - 2], children[|children| - 1];
      match Pairs(children[..|children| - 2])
      case None => None
      case Some(front) =>
        if key.tag != "key" || !key.value.Str? || item.tag == "key" || HasKey(front, key.value.s) then None
        else Some(front + [Pair(key.value.s, item.value)])
  }

  function Values(children: seq<Child>): (r: seq<Value>)
    ensures |r| == |children|
    ensures forall i | 0 <= i < |children| :: r[i] == children[i].value
  {
    seq(|children|, i requires 0 <= i < |children| => children[i].value)
  }

  /** The value of a closed element from its tag, its element children and its text. */
  function Close(tag: string, children: seq<Child>, text: string): (r: Option<Value>) {
    if tag in CONTAINERS && Strip(text) != "" then None
    else if tag == "dict" then
      (match Pairs(children) case None => None case Some(entries) => Some(Dict(entries)))
    else if tag == "array" then
      if exists i | 0 <= i < |children| :: children[i].tag == "key" then None else Some(Arr(Values(children)))
    else if tag == "plist" then
      if |children| != 1 || children[0].tag != "dict" then None else Some(children[0].value)
    else if tag == "true" || tag == "false" then
      if text != "" then None else Some(Bool(tag == "true"))
    else if tag == "integer" then
      var literal := Strip(text);
      if !Decimal.IsCanonical(literal) || |literal| > 20 || Decimal.Parse(literal) > MAX_U64 then None
      else Some(Int(Decimal.Parse(literal)))
    else Some(Str(text))
  }

  /** Whether an element may open under depth open elements, the innermost of them named parent. */
  predicate MayOpen(name: string, attrs: map<string, string>, depth: nat, parent: string, rootTaken: bool) {
    && depth + 1 <= MAX_DEPTH
    && name in TAGS
    && (if name == "plist" then depth == 0 && !rootTaken && attrs == map["version" := "1.0"] else attrs == map[])
    && (depth == 0 ==> name == "plist")
    && (depth > 0 ==> parent in CONTAINERS)
  }

  // -------------------------------------------------------------------- stack machine

  function Step(s: State, e: Event): (r: Option<State>) {
    match e
    case Start(name, attrs) =>
      if s.count + 1 > MAX_NODES then None
      else if !MayOpen(name, attrs, |s.stack|, if s.stack == [] then "" else s.stack[|s.stack| - 1].tag, s.roots != [])
      then None
      else Some(State(s.stack + [Frame(name, [], [])], s.roots, s.count + 1))
    case Chars(text) =>
      if s.stack == [] then (if Strip(text) != "" then None else Some(s))
      else
        var top := s.stack[|s.stack| - 1];
        Some(s.(stack := s.stack[..|s.stack| - 1] + [top.(parts := top.parts + [text])]))
    case End(_) =>
      if s.stack == [] then None
      else
        var top, rest := s.stack[|s.stack| - 1], s.stack[..|s.stack| - 1];
        (match Close(top.tag, top.children, Join(top.parts))
         case None => None
         case Some(value) => Some(Attach(s.(stack := rest), top.tag, value)))
    case Comment => if s.count + 1 > MAX_NODES then None else Some(s.(count := s.count + 1))
  }

  /** A finished value goes to the enclosing element, or to the roots. */
  function Attach(s: State, tag: string, value: Value): State {
    if s.stack == [] then s.(roots := s.roots + [value])
    else
      var top := s.stack[|s.stack| - 1];
      s.(stack := s.stack[..|s.stack| - 1] + [top.(children := top.children + [Child(tag, value)])])
  }

  function Run(s: State, events: seq<Event>): (r: Option<State>)
    decreases |events|
  {
    if events == [] then Some(s)
    else match Step(s, events[0]) case None => None case Some(next) => Run(next, events[1..])
  }

  const INITIAL := State([], [], 0)

  /** `parse_xml` from the events its parser reports. */
  function Parse(events: seq<Event>): (r: Option<Value>) {
    match Run(INITIAL, events)
    case None => None
    case Some(s) => if |s.roots| != 1 || s.stack != [] then None else Some(s.roots[0])
  }

  /** The handlers as they are installed on the parser; a false result is the raised ConfigError. */
  class Reader {
    var stack: seq<Frame>
    var roots: seq<Value>
    var count: nat

    function Current(): State reads this { State(stack, roots, count) }

    constructor ()
      ensures Current() == INITIAL
    {
      stack, roots, count := [], [], 0;
    }

    method OnStart(name: string, attrs: map<string, string>) returns (ok: bool)
      modifies this
      ensures ok <==> Step(old(Current()), Start(name, attrs)).Some?
      ensures ok ==> Current() == Step(old(Current()), Start(name, attrs)).value
    {
      count := count + 1;
      if count > MAX_NODES {
        return false;
      }
      if |stack| + 1 > MAX_DEPTH || name !in TAGS {
        return false;
      }
      if name == "plist" {
        if stack != [] || roots != [] || attrs != map["version" := "1.0"] {
          return false;
        }
      } else if attrs != map[] {
        return false;
      }
      if stack == [] && name != "plist" {
        return false;
      }
      if stack != [] && stack[|stack| - 1].tag !in CONTAINERS {
        return false;
      }
      stack := stack + [Frame(name, [], [])];
      return true;
    }

    method OnChars(text: string) returns (ok: bool)
      modifies this
      ensures ok <==> Step(old(Current()), Chars(text)).Some?
      ensures ok ==> Current() == Step(old(Current()), Chars(text)).value
    {
      if stack == [] {
        return Strip(text) == "";
      }
      var top := stack[|stack| - 1];
      stack := stack[..|stack| - 1] + [top.(parts := top.parts + [text])];
      return true;
    }

    method OnEnd(name: string) returns (ok: bool)
      requires stack != []
      modifies this
      ensures ok <==> Step(old(Current()), End(name)).Some?
      ensures ok ==> Current() == Step(old(Current()), End(name)).value
    {
      hide Strip, Decimal.Parse, Decimal.IsCanonical;
      var top := stack[|stack| - 1];
      stack := stack[..|stack| - 1];
      var text := Join(top.parts);
      var value: Value;
      if top.tag in CONTAINERS && Strip(text) != "" {
        return false;
      }
      if top.tag == "dict" {
        var entries := BuildDictionary(top.children);
        if entries.None? {
          return false;
        }
        value := Dict(entries.value);
      } else {
        var other := Close(top.tag, top.children, text);
        if other.None? {
          return false;
        }
        value := other.value;
      }
      if stack != [] {
        var outer := stack[|stack| - 1];
        stack := stack[..|stack| - 1] + [outer.(children := outer.children + [Child(top.tag, value)])];
      } else {
        roots := roots + [value];
      }
      return true;
    }

    method OnComment() returns (ok: bool)
      modifies this
      ensures ok <==> Step(old(Current()), Comment).Some?
      ensures ok ==> Current() == Step(old(Current()), Comment).value
    {
      count := count + 1;
      return count <= MAX_NODES;
    }
  }

  /** The dictionary loop of the end handler, two children at a time. */
  method BuildDictionary(children: seq<Child>) returns (r: Option<seq<Pair>>)
    ensures r == Pairs(children)
  {
    if |children| % 2 != 0 {
      OddPairs(children);
      return None;
    }
    var entries: seq<Pair> := [];
    var index := 0;
    while index < |children|
      invariant 0 <= index <= |children| && index % 2 == 0
      invariant Pairs(children[..index]) == Some(entries)
    {
      var key, item := children[index], children[index + 1];
      var longer := children[..index + 2];
      assert longer[..index] == children[..index] && longer[index] == key && longer[index + 1] == item;
      if key.tag != "key" || !key.value.Str? || item.tag == "key" || HasKey(entries, key.value.s) {
        PairsPrefix(children, index + 2);
        return None;
      }
      entries := entries + [Pair(key.value.s, item.value)];
      index := index + 2;
    }
    assert children[..index] == children;
    r := Some(entries);
  }

  lemma {:induction false} OddPairs(children: seq<Child>)
    requires |children| % 2 == 1
    ensures Pairs(children) == None
    decreases |children|
  {
    if |children| > 1 {
      OddPairs(children[..|children| - 2]);
    }
  }

  lemma {:induction false} PairsPrefix(children: seq<Child>, index: nat)
    requires index <= |children| && index % 2 == 0 && |children| % 2 == 0
    requires Pairs(children[..index]) == None
    ensures Pairs(children) == None
    decreases |children|
  {
    if index == |children| {
      assert children[..index] == children;
    } else {
      var front := children[..|children| - 2];
      assert front[..index] == children[..index];
      PairsPrefix(front, index);
    }
  }

  /** Feeding the handlers a balanced stream and checking what is left at the end. */
  method ParseEvents(events: seq<Event>) returns (r: Option<Value>)
    requires Balanced(events, [])
    ensures r == Parse(events)
  {
    hide Step, MayOpen, Close;
    var reader := new Reader();
    ghost var open: seq<string> := [];
    for i := 0 to |events|
      invariant fresh(reader)
      invariant Run(INITIAL, events) == Run(reader.Current(), events[i..])
      invariant |reader.stack| == |open| && Balanced(events[i..], open)
    {
      ghost var before := reader.Current();
      var ok;
      ghost var rest := events[i..];
      assert rest[0] == events[i] && rest[1..] == events[i + 1..];
      StackHeight(before, events[i]);
      match events[i] {
        case Start(name, attrs) => ok := reader.OnStart(name, attrs); open := open + [name];
        case Chars(text) => ok := reader.OnChars(text);
        case End(name) => ok := reader.OnEnd(name); open := open[..|open| - 1];
        case Comment => ok := reader.OnComment();
      }
      if !ok {
        return None;
      }
    }
    assert events[|events|..] == [];
    r := if |reader.roots| != 1 || reader.stack != [] then None else Some(reader.roots[0]);
  }

  lemma StackHeight(s: State, e: Event)
    ensures Step(s, e).Some? ==>
              |Step(s, e).value.stack| == |s.stack| + (if e.Start? then 1 else if e.End? then -1 else 0)
  {
  }

  // --------------------------------------------------------- trees and balanced streams

  function Events(x: Xml): seq<Event> {
    match x
    case Text(text) => [Chars(text)]
    case Note => [Comment]
    case Element(name, attrs, content) => [Start(name, attrs)] + EventsOf(content) + [End(name)]
  }

  function EventsOf(content: seq<Xml>): seq<Event> {
    if content == [] then [] else Events(content[0]) + EventsOf(content[1..])
  }

  /** Every end names the innermost open element, and nothing is left open. */
  predicate Balanced(events: seq<Event>, open: seq<string>) {
    if events == [] then open == []
    else match events[0]
      case Start(name, _) => Balanced(events[1..], open + [name])
      case End(name) => open != [] && open[|open| - 1] == name && Balanced(events[1..], open[..|open| - 1])
      case _ => Balanced(events[1..], open)
  }

  /** Every balanced stream is the event stream of some forest. */
  lemma {:induction false} ReadForest(events: seq<Event>, open: seq<string>)
    returns (forest: seq<Xml>, rest: seq<Event>)
    requires Balanced(events, open)
    ensures events == EventsOf(forest) + rest && |rest| <= |events|
    ensures Balanced(rest, open) && (rest == [] || rest[0].End?)
    decreases |events|
  {
    hide Events, EventsOf;
    if events == [] || events[0].End? {
      NoEvents(events);
      return [], events;
    }
    var first: Xml, tail;
    match events[0] {
      case Start(name, attrs) =>
        var content, after := ReadForest(events[1..], open + [name]);
        assert (open + [name])[..|open|] == open;
        first, tail := Element(name, attrs, content), after[1..];
        ElementEvents(name, attrs, content, tail);
        assert after == [End(name)] + tail;
      case Chars(text) =>
        first, tail := Text(text), events[1..];
        OneEvent(first);
      case Comment =>
        first, tail := Note, events[1..];
        OneEvent(first);
    }
    assert events == [events[0]] + events[1..];
    var others;
    others, rest := ReadForest(tail, open);
    forest := [first] + others;
    EventsOfCons(first, others, rest);
  }

  lemma NoEvents(events: seq<Event>)
    ensures events == EventsOf([]) + events
  {
  }

  lemma OneEvent(x: Xml)
    requires !x.Element?
    ensures Events(x) == [if x.Text? then Chars(x.text) else Comment]
  {
  }

  lemma ElementEvents(name: string, attrs: map<string, string>, content: seq<Xml>, tail: seq<Event>)
    ensures [Start(name, attrs)] + (EventsOf(content) + ([End(name)] + tail))
            == Events(Element(name, attrs, content)) + tail
  {
  }

  lemma EventsOfCons(first: Xml, others: seq<Xml>, rest: seq<Event>)
    ensures EventsOf([first] + others) + rest == Events(first) + (EventsOf(others) + rest)
  {
    assert ([first] + others)[1..] == others;
  }

  // ------------------------------------------------------------------ recursive meaning

  function Nodes(x: Xml): nat {
    match x
    case Text(_) => 0
    case Note => 1
    case Element(_, _, content) => 1 + NodesOf(content)
  }

  function NodesOf(content: seq<Xml>): nat {
    if content == [] then 0 else Nodes(content[0]) + NodesOf(content[1..])
  }

  function TextOf(content: seq<Xml>): string {
    if content == [] then ""
    else (if content[0].Text? then content[0].text else "") + TextOf(content[1..])
  }

  /** The value of an element under depth open ones, read off the tree directly. */
  function Meaning(x: Xml, depth: nat, parent: string): (r: Option<Value>)
    requires x.Element?
  {
    if !MayOpen(x.name, x.attrs, depth, parent, false) then None
    else match MeaningOf(x.content, depth + 1, x.name)
      case None => None
      case Some(children) => Close(x.name, children, TextOf(x.content))
  }

  function MeaningOf(content: seq<Xml>, depth: nat, parent: string): (r: Option<seq<Child>>) {
    if content == [] then Some([])
    else if !content[0].Element? then MeaningOf(content[1..], depth, parent)
    else
      match Meaning(content[0], depth, parent)
      case None => None
      case Some(value) =>
        match MeaningOf(content[1..], depth, parent)
        case None => None
        case Some(rest) => Some([Child(content[0].name, value)] + rest)
  }

  /** Top level: blank text, comments, and the roots in order; a second root is refused. */
  function MeaningOfTop(forest: seq<Xml>, roots: seq<Value>): (r: Option<seq<Value>>) {
    if forest == [] then Some(roots)
    else match forest[0]
      case Text(text) => if Strip(text) != "" then None else MeaningOfTop(forest[1..], roots)
      case Note => MeaningOfTop(forest[1..], roots)
      case Element(_, _, _) =>
        if roots != [] then None
        else match Meaning(forest[0], 0, "")
          case None => None
          case Some(value) => MeaningOfTop(forest[1..], roots + [value])
  }

  function DocumentMeaning(forest: seq<Xml>): (r: Option<Value>) {
    if NodesOf(forest) > MAX_NODES then None
    else match MeaningOfTop(forest, [])
      case None => None
      case Some(roots) => if |roots| == 1 then Some(roots[0]) else None
  }

  // ------------------------------------------------------- the machine computes the meaning

  lemma {:induction false} RunAppend(s: State, first: seq<Event>, second: seq<Event>)
    ensures Run(s, first + second) ==
            match Run(s, first) case None => None case Some(next) => Run(next, second)
    decreases |first|
  {
    hide Step;
    if first == [] {
      assert first + second == second;
    } else {
      assert (first + second)[1..] == first[1..] + second;
      if Step(s, first[0]).Some? {
        RunAppend(Step(s, first[0]).value, first[1..], second);
      }
    }
  }

  predicate Inside(s: State) { s.stack != [] }

  function Top(s: State): Frame requires Inside(s) { s.stack[|s.stack| - 1] }

  /** s after content that contributed these children and this text to the innermost open element. */
  predicate Grown(s: State, next: State, children: seq<Child>, text: string, nodes: nat)
    requires Inside(s)
  {
    && Inside(next) && next.stack[..|next.stack| - 1] == s.stack[..|s.stack| - 1]
    && next.roots == s.roots && next.count == s.count + nodes
    && Top(next).tag == Top(s).tag
    && Top(next).children == Top(s).children + children
    && Join(Top(next).parts) == Join(Top(s).parts) + text
  }

  /** The machine over the events of an element, started inside another one or at the top. */
  lemma {:induction false} RunElement(s: State, x: Xml)
    requires x.Element?
    ensures var parent := if Inside(s) then Top(s).tag else "";
            var value := Meaning(x, |s.stack|, parent);
            var fits := s.count + Nodes(x) <= MAX_NODES && value.Some? && (Inside(s) || s.roots == []);
            Run(s, Events(x)) ==
              if fits then Some(Attach(s.(count := s.count + Nodes(x)), x.name, value.value)) else None
    decreases x, 0
  {
    hide Close, Join, Step, Run, MayOpen, Attach, EventsOf, MeaningOf, NodesOf, TextOf, Grown;
    var parent := if Inside(s) then Top(s).tag else "";
    RunParts(s, x);
    StartStep(s, x, parent);
    var step := Step(s, Start(x.name, x.attrs));
    if step.Some? {
      var started := step.value;
      RunContent(started, x.content);
      var ran := Run(started, EventsOf(x.content));
      if ran.Some? {
        CloseElement(s, started, ran.value, x);
      }
    }
  }

  /** Running an element is opening it, running its content, and closing it. */
  lemma RunParts(s: State, x: Xml)
    requires x.Element?
    ensures Run(s, Events(x)) ==
            match Step(s, Start(x.name, x.attrs))
            case None => None
            case Some(started) =>
              match Run(started, EventsOf(x.content))
              case None => None
              case Some(grown) => Run(grown, [End(x.name)])
  {
    hide Step, EventsOf;
    var inner := EventsOf(x.content) + [End(x.name)];
    assert Events(x) == [Start(x.name, x.attrs)] + inner;
    assert Events(x)[1..] == inner;
    if Step(s, Start(x.name, x.attrs)).Some? {
      RunAppend(Step(s, Start(x.name, x.attrs)).value, EventsOf(x.content), [End(x.name)]);
    }
  }

  lemma StartStep(s: State, x: Xml, parent: string)
    requires x.Element? && parent == if Inside(s) then Top(s).tag else ""
    ensures Step(s, Start(x.name, x.attrs)) ==
            if && s.count + 1 <= MAX_NODES && MayOpen(x.name, x.attrs, |s.stack|, parent, false)
               && (Inside(s) || s.roots == [])
            then Some(State(s.stack + [Frame(x.name, [], [])], s.roots, s.count + 1)) else None
  {
    RootTaken(s, x, parent);
  }

  lemma RootTaken(s: State, x: Xml, parent: string)
    requires x.Element?
    ensures MayOpen(x.name, x.attrs, |s.stack|, parent, s.roots != [])
            <==> MayOpen(x.name, x.attrs, |s.stack|, parent, false) && (Inside(s) || s.roots == [])
  {
  }

  lemma CloseElement(s: State, started: State, grown: State, x: Xml)
    requires x.Element? && started == State(s.stack + [Frame(x.name, [], [])], s.roots, s.count + 1)
    requires MeaningOf(x.content, |s.stack| + 1, x.name).Some?
    requires Grown(started, grown, MeaningOf(x.content, |s.stack| + 1, x.name).value, TextOf(x.content),
                   NodesOf(x.content))
    ensures var value := Close(x.name, MeaningOf(x.content, |s.stack| + 1, x.name).value, TextOf(x.content));
            Run(grown, [End(x.name)]) ==
              if value.Some? then Some(Attach(s.(count := s.count + Nodes(x)), x.name, value.value)) else None
  {
    hide Close, MeaningOf, TextOf, NodesOf;
    assert started.stack[..|started.stack| - 1] == s.stack;
    assert Join([]) == "";
    assert Join(Top(grown).parts) == TextOf(x.content);
    assert Top(grown).children == MeaningOf(x.content, |s.stack| + 1, x.name).value;
    assert grown.(stack := s.stack) == s.(count := s.count + Nodes(x));
    assert [End(x.name)][1..] == [];
    assert Run(grown, [End(x.name)]) == Step(grown, End(x.name));
  }

  lemma {:induction false} RunContent(s: State, content: seq<Xml>)
    requires Inside(s) && s.count <= MAX_NODES
    ensures var children := MeaningOf(content, |s.stack|, Top(s).tag);
            var ran := Run(s, EventsOf(content));
            && (ran.Some? <==> children.Some? && s.count + NodesOf(content) <= MAX_NODES)
            && (ran.Some? ==> Grown(s, ran.value, children.value, TextOf(content), NodesOf(content)))
    decreases content
  {
    hide Run, Meaning, MeaningOf, Grown, EventsOf, NodesOf, TextOf, FirstChild;
    var depth, tag := |s.stack|, Top(s).tag;
    if content == [] {
      NothingGrows(s);
      NoMeaning(depth, tag);
    } else {
      var first, rest := content[0], content[1..];
      RunAppend(s, Events(first), EventsOf(rest));
      ContentParts(content);
      MeaningOfFirst(content, depth, tag);
      RunFirst(s, first);
      var ran := Run(s, Events(first));
      if ran.Some? {
        GrownKeepsPlace(s, ran.value, FirstChild(first, depth, tag).value, OwnText(first), Nodes(first));
        RunContent(ran.value, rest);
        var all := Run(ran.value, EventsOf(rest));
        if all.Some? {
          GrownTwice(s, ran.value, all.value, FirstChild(first, depth, tag).value, OwnText(first), Nodes(first),
                     MeaningOf(rest, depth, tag).value, TextOf(rest), NodesOf(rest));
        }
      }
    }
  }

  /** One item of the content of an open element. */
  lemma {:induction false} RunFirst(s: State, first: Xml)
    requires Inside(s) && s.count <= MAX_NODES
    ensures var child := FirstChild(first, |s.stack|, Top(s).tag);
            var ran := Run(s, Events(first));
            && (ran.Some? <==> child.Some? && s.count + Nodes(first) <= MAX_NODES)
            && (ran.Some? ==> Grown(s, ran.value, child.value, OwnText(first), Nodes(first)))
    decreases first, 1
  {
    hide Run, Step, Attach, Join, Meaning, Grown;
    match first
    case Element(_, _, _) =>
      RunElement(s, first);
      if Run(s, Events(first)).Some? {
        AttachGrows(s, first.name, Meaning(first, |s.stack|, Top(s).tag).value, Nodes(first));
      }
    case Text(text) =>
      RunOne(s, Chars(text));
      TextGrows(s, text);
    case Note =>
      RunOne(s, Comment);
      CommentGrows(s);
  }

  function OwnText(x: Xml): string { if x.Text? then x.text else "" }

  lemma ContentParts(content: seq<Xml>)
    requires content != []
    ensures EventsOf(content) == Events(content[0]) + EventsOf(content[1..])
    ensures TextOf(content) == OwnText(content[0]) + TextOf(content[1..])
    ensures NodesOf(content) == Nodes(content[0]) + NodesOf(content[1..])
  {
  }

  lemma NoMeaning(depth: nat, parent: string)
    ensures MeaningOf([], depth, parent) == Some([])
    ensures EventsOf([]) == [] && TextOf([]) == "" && NodesOf([]) == 0
    ensures forall s :: Run(s, []) == Some(s)
  {
  }

  /** What the first item of some content contributes. */
  function FirstChild(x: Xml, depth: nat, parent: string): Option<seq<Child>> {
    if !x.Element? then Some([])
    else match Meaning(x, depth, parent) case None => None case Some(value) => Some([Child(x.name, value)])
  }

  /** The children of two parts of a content, if both have a meaning. */
  function Joined(a: Option<seq<Child>>, b: Option<seq<Child>>): Option<seq<Child>> {
    if a.Some? && b.Some? then Some(a.value + b.value) else None
  }

  lemma JoinedAssociates(a: Option<seq<Child>>, b: Option<seq<Child>>, c: Option<seq<Child>>)
    ensures Joined(Joined(a, b), c) == Joined(a, Joined(b, c))
    ensures Joined(Some([]), c) == c && Joined(c, Some([])) == c
  {
    if a.Some? && b.Some? && c.Some? {
      assert (a.value + b.value) + c.value == a.value + (b.value + c.value);
    }
    if c.Some? {
      assert [] + c.value == c.value == c.value + [];
    }
  }

  lemma MeaningOfFirst(content: seq<Xml>, depth: nat, parent: string)
    requires content != []
    ensures MeaningOf(content, depth, parent) ==
            Joined(FirstChild(content[0], depth, parent), MeaningOf(content[1..], depth, parent))
  {
    hide Meaning;
    JoinedAssociates(None, None, MeaningOf(content[1..], depth, parent));
  }

  lemma NothingGrows(s: State)
    requires Inside(s)
    ensures Grown(s, s, [], "", 0)
  {
  }

  lemma AttachGrows(s: State, tag: string, value: Value, nodes: nat)
    requires Inside(s)
    ensures Grown(s, Attach(s.(count := s.count + nodes), tag, value), [Child(tag, value)], "", nodes)
  {
  }

  lemma TextGrows(s: State, text: string)
    requires Inside(s)
    ensures Step(s, Chars(text)).Some? && Grown(s, Step(s, Chars(text)).value, [], text, 0)
  {
    hide Join, Strip, MayOpen, Close, Attach;
    JoinAppend(Top(s).parts, text);
    var next := Step(s, Chars(text)).value;
    assert next.stack == s.stack[..|s.stack| - 1] + [Top(s).(parts := Top(s).parts + [text])];
    assert next.stack[..|next.stack| - 1] == s.stack[..|s.stack| - 1];
    assert Top(s).children + [] == Top(s).children;
  }

  lemma CommentGrows(s: State)
    requires Inside(s)
    ensures Step(s, Comment).Some? <==> s.count + 1 <= MAX_NODES
    ensures Step(s, Comment).Some? ==> Grown(s, Step(s, Comment).value, [], "", 1)
  {
  }

  lemma GrownKeepsPlace(s: State, next: State, children: seq<Child>, text: string, nodes: nat)
    requires Inside(s) && Grown(s, next, children, text, nodes)
    ensures Inside(next) && |next.stack| == |s.stack| && Top(next).tag == Top(s).tag && next.count == s.count + nodes
  {
    assert |next.stack[..|next.stack| - 1]| == |s.stack[..|s.stack| - 1]|;
  }

  lemma GrownTwice(s: State, mid: State, next: State, c1: seq<Child>, t1: string, n1: nat,
                   c2: seq<Child>, t2: string, n2: nat)
    requires Inside(s) && Grown(s, mid, c1, t1, n1) && Grown(mid, next, c2, t2, n2)
    ensures Grown(s, next, c1 + c2, t1 + t2, n1 + n2)
  {
    hide Join;
    assert (Top(s).children + c1) + c2 == Top(s).children + (c1 + c2);
    assert (Join(Top(s).parts) + t1) + t2 == Join(Top(s).parts) + (t1 + t2);
  }

  lemma RunOne(s: State, e: Event)
    ensures Run(s, [e]) == Step(s, e)
  {
    assert [e][1..] == [];
  }

  lemma {:induction false} RunTop(s: State, forest: seq<Xml>)
    requires s.stack == [] && s.count <= MAX_NODES
    ensures var roots := MeaningOfTop(forest, s.roots);
            Run(s, EventsOf(forest)) ==
              if roots.Some? && s.count + NodesOf(forest) <= MAX_NODES
              then Some(State([], roots.value, s.count + NodesOf(forest))) else None
    decreases forest
  {
    hide Close, Join, MayOpen, Strip, Meaning;
    if forest != [] {
      var first, rest := forest[0], forest[1..];
      RunAppend(s, Events(first), EventsOf(rest));
      match first {
        case Element(_, _, _) => RunElement(s, first);
        case Text(text) => RunOne(s, Chars(text));
        case Note => RunOne(s, Comment);
      }
      if Run(s, Events(first)).Some? {
        RunTop(Run(s, Events(first)).value, rest);
      }
    }
  }

  /** On the events of any forest the handlers accept and return exactly what its recursive meaning says. */
  lemma MachineComputesMeaning(forest: seq<Xml>)
    ensures Parse(EventsOf(forest)) == DocumentMeaning(forest)
  {
    RunTop(INITIAL, forest);
  }

  /** The same for every balanced stream: it is the stream of a forest, and the handlers return its meaning. */
  lemma BalancedStreamMeaning(events: seq<Event>) returns (forest: seq<Xml>)
    requires Balanced(events, [])
    ensures events == EventsOf(forest)
    ensures Parse(events) == DocumentMeaning(forest)
  {
    var rest;
    forest, rest := ReadForest(events, []);
    assert events == EventsOf(forest);
    MachineComputesMeaning(forest);
  }
}
