/**
 * XML documents as trees: the part of the DOM the parsers and builders use, and the
 * navigators get_child, get_children, get_text and get_attr.
 */
module XmlTree {
  import opened Options
  import opened Sequences

  datatype Node =
    | Text(data: string)
    | Element(tag: string, attrs: map<string, string>, nodes: seq<Node>)

  // ----- DOM accessors -----

  /** `parent.children`: the elements among the child nodes. */
  function Children(nodes: seq<Node>): seq<Node> {
    if nodes == [] then []
    else (if nodes[0].Element? then [nodes[0]] else []) + Children(nodes[1..])
  }

  /** `textContent` */
  function TextContent(n: Node): string
    decreases n, 1
  {
    match n
    case Text(data) => data
    case Element(_, _, nodes) => TextOf(nodes)
  }

  function TextOf(nodes: seq<Node>): string
    decreases nodes, 0
  {
    if nodes == [] then "" else TextContent(nodes[0]) + TextOf(nodes[1..])
  }

  /** The text of some nodes is the text of each, in order. */
  lemma {:induction false} TextOfConcat(a: seq<Node>, b: seq<Node>)
    ensures TextOf(a + b) == TextOf(a) + TextOf(b)
    ensures forall n: Node :: TextOf([n]) == TextContent(n)
    ensures forall t: string :: TextContent(Text(t)) == t
  {
    assert forall n: Node :: [n][1..] == [];
    if a == [] {
      assert a + b == b;
    } else {
      TextOfConcat(a[1..], b);
      assert (a + b)[1..] == a[1..] + b;
    }
  }

  /** `getAttribute(name)`, None for null. */
  function Attribute(n: Node, name: string): OptString {
    if n.Element? && name in n.attrs then Some(n.attrs[name]) else None
  }

  /** `getElementsByTagName(tag)` on the element with these child nodes: all descendants,
      in document order. */
  function Descendants(nodes: seq<Node>, tag: string): seq<Node> {
    if nodes == [] then []
    else
      (match nodes[0]
       case Text(_) => []
       case Element(t, _, inner) => (if t == tag then [nodes[0]] else []) + Descendants(inner, tag))
      + Descendants(nodes[1..], tag)
  }

  /** getSingleOptionalElem: the first descendant with the tag. */
  function FirstDescendant(n: Node, tag: string): Option<Node> {
    if n.Element? && Descendants(n.nodes, tag) != [] then Some(Descendants(n.nodes, tag)[0]) else None
  }

  // ----- Navigation -----

  /** What a step of a path asks of an element. In the record form, the key "tag" stands for
      the tag name and every other key for an attribute. */
  datatype Match =
    | Tag(name: string)
    | Record(conditions: seq<(string, string)>)
    | Test(accepts: Node -> bool)

  predicate ElementMatches(e: Node, m: Match) {
    match m
    case Tag(name) => e.Element? && e.tag == name
    case Record(conditions) =>
      forall c :: c in conditions ==>
                    if c.0 == "tag" then e.Element? && e.tag == c.1 else Attribute(e, c.0) == Some(c.1)
    case Test(accepts) => accepts(e)
  }

  /** A record matches an element that has the tag name and all attributes it gives, and a test
      one that it accepts. */
  lemma RecordMatches(e: Node, tag: string, attr: string, value: string)
    requires e.Element? && attr != "tag"
    ensures ElementMatches(e, Record([("tag", tag), (attr, value)])) <==> e.tag == tag && Attribute(e, attr) == Some(value)
    ensures ElementMatches(e, Record([(attr, value)])) <==> Attribute(e, attr) == Some(value)
    ensures ElementMatches(e, Record([]))
    ensures forall accepts: Node -> bool :: ElementMatches(e, Test(accepts)) <==> accepts(e)
  {
    var a, b := ("tag", tag), (attr, value);
    assert a in [a, b] && b in [a, b] && b in [b];
  }

  /** All elements of a list that match, in their order. */
  function Matching(elements: seq<Node>, m: Match): seq<Node> {
    if elements == [] then []
    else (if ElementMatches(elements[0], m) then [elements[0]] else []) + Matching(elements[1..], m)
  }

  function Head(s: seq<Node>): Option<Node> {
    if s == [] then None else Some(s[0])
  }

  function ElementNodes(n: Node): seq<Node> {
    if n.Element? then Children(n.nodes) else []
  }

  function GetChild(parent: Option<Node>, path: seq<Match>): Option<Node>
    decreases |path|
  {
    if path == [] then parent
    else if parent.None? then None
    else GetChild(FirstMatching(ElementNodes(parent.value), path[0]), path[1..])
  }

  function FirstMatching(elements: seq<Node>, m: Match): Option<Node> {
    if elements == [] then None
    else if ElementMatches(elements[0], m) then Some(elements[0])
    else FirstMatching(elements[1..], m)
  }

  function GetChildren(parent: Option<Node>, path: seq<Match>): seq<Node> {
    if path == [] then []
    else
      var p := GetChild(parent, path[..|path| - 1]);
      if p.None? then [] else Matching(ElementNodes(p.value), path[|path| - 1])
  }

  function GetText(parent: Option<Node>, path: seq<Match>): OptString {
    var c := GetChild(parent, path);
    if c.None? then None else Some(TextContent(c.value))
  }

  /** get_attr: an empty attribute counts as missing. */
  function GetAttr(parent: Option<Node>, path: seq<Match>, attr: string): OptString {
    var c := GetChild(parent, path);
    if c.None? then None else NonEmpty(Attribute(c.value, attr))
  }

  // ----- The loops of get_child and get_children -----

  method FindChild(parent: Option<Node>, path: seq<Match>) returns (r: Option<Node>)
    ensures r == GetChild(parent, path)
  {
    hide FirstMatching, ElementMatches;
    r := parent;
    var i := 0;
    assert path[0..] == path;
    while i < |path|
      invariant 0 <= i <= |path|
      invariant GetChild(r, path[i..]) == GetChild(parent, path)
    {
      assert path[i..][1..] == path[i + 1..];
      if r.None? {
        return;
      }
      FirstOfNone(path[i]);
      var children := ElementNodes(r.value);
      r := None;
      var j := 0;
      ghost var first := FirstMatching(children, path[i]);
      assert children[0..] == children;
      while j < |children|
        invariant 0 <= j <= |children|
        invariant r.None? && FirstMatching(children[j..], path[i]) == first
        invariant j == |children| ==> first.None?
      {
        FirstStep(children, path[i], j);
        if ElementMatches(children[j], path[i]) {
          r := Some(children[j]);
          break;
        }
        j := j + 1;
      }
      i := i + 1;
    }
  }

  lemma FirstStep(children: seq<Node>, m: Match, j: nat)
    requires j < |children|
    ensures FirstMatching(children[j..], m)
         == if ElementMatches(children[j], m) then Some(children[j]) else FirstMatching(children[j + 1..], m)
    ensures j + 1 == |children| ==> FirstMatching(children[j + 1..], m) == None
  {
    assert children[j..][1..] == children[j + 1..];
  }

  lemma FirstOfNone(m: Match)
    ensures FirstMatching([], m) == None
  {
  }

  lemma NoParent(path: seq<Match>)
    ensures GetChild(None, path) == None
  {
  }

  method CollectChildren(parent: Option<Node>, path: seq<Match>) returns (r: seq<Node>)
    ensures r == GetChildren(parent, path)
  {
    r := [];
    if |path| == 0 {
      return;
    }
    var p := FindChild(parent, path[..|path| - 1]);
    if p.Some? {
      r := CollectMatching(ElementNodes(p.value), path[|path| - 1]);
    }
  }

  method CollectMatching(children: seq<Node>, m: Match) returns (r: seq<Node>)
    ensures r == Matching(children, m)
  {
    hide Matching, ElementMatches;
    r := [];
    var i := 0;
    assert children[0..] == children;
    while i < |children|
      invariant 0 <= i <= |children|
      invariant r + Matching(children[i..], m) == Matching(children, m)
    {
      MatchingStep(children, m, i);
      if ElementMatches(children[i], m) {
        r := r + [children[i]];
      }
      i := i + 1;
    }
    MatchingNone(children, m);
  }

  lemma MatchingStep(children: seq<Node>, m: Match, i: nat)
    requires i < |children|
    ensures Matching(children[i..], m)
         == (if ElementMatches(children[i], m) then [children[i]] else []) + Matching(children[i + 1..], m)
  {
    assert children[i..][1..] == children[i + 1..];
  }

  lemma MatchingNone(children: seq<Node>, m: Match)
    ensures Matching(children[|children|..], m) == []
  {
  }

  // ----- Laws of navigation -----

  /** A path may be followed in two parts. */
  lemma {:induction false} GetChildCompose(parent: Option<Node>, first: seq<Match>, rest: seq<Match>)
    ensures GetChild(parent, first + rest) == GetChild(GetChild(parent, first), rest)
    decreases |first|
  {
    hide FirstMatching;
    if first == [] {
      assert first + rest == rest;
    } else if parent.None? {
      NoParent(rest);
    } else {
      assert (first + rest)[1..] == first[1..] + rest;
      GetChildCompose(FirstMatching(ElementNodes(parent.value), first[0]), first[1..], rest);
    }
  }

  lemma {:induction false} FirstIsHead(elements: seq<Node>, m: Match)
    ensures FirstMatching(elements, m) == Head(Matching(elements, m))
  {
    if elements != [] {
      FirstIsHead(elements[1..], m);
    }
  }

  /** get_child finds the first of what get_children finds. */
  lemma GetChildIsHead(parent: Option<Node>, path: seq<Match>)
    requires path != []
    ensures GetChild(parent, path) == Head(GetChildren(parent, path))
  {
    var front, last := path[..|path| - 1], path[|path| - 1];
    assert path == front + [last];
    GetChildCompose(parent, front, [last]);
    var p := GetChild(parent, front);
    if p.Some? {
      FirstIsHead(ElementNodes(p.value), last);
      assert [last][1..] == [];
    }
  }

  /** The children found are elements right below the parent, never deeper: an element whose
      own children match is not found through them. */
  lemma {:induction false} ChildrenAreDirect(nodes: seq<Node>, m: Match, e: Node)
    ensures e in Matching(Children(nodes), m) <==> e in nodes && e.Element? && ElementMatches(e, m)
  {
    if nodes != [] {
      ChildrenAreDirect(nodes[1..], m, e);
      assert nodes == [nodes[0]] + nodes[1..];
      MatchingConcat(if nodes[0].Element? then [nodes[0]] else [], Children(nodes[1..]), m);
    }
  }

  lemma MatchingUnfold(s: seq<Node>, m: Match)
    requires s != []
    ensures Matching(s, m) == (if ElementMatches(s[0], m) then [s[0]] else []) + Matching(s[1..], m)
  {
  }

  lemma {:induction false} MatchingConcat(a: seq<Node>, b: seq<Node>, m: Match)
    ensures Matching(a + b, m) == Matching(a, m) + Matching(b, m)
  {
    if a == [] {
      assert a + b == b;
    } else {
      hide Matching, ElementMatches;
      TailConcat(a, b);
      MatchingUnfold(a, m);
      MatchingUnfold(a + b, m);
      MatchingConcat(a[1..], b, m);
      if !ElementMatches(a[0], m) {
        assert [] + Matching(a[1..], m) == Matching(a[1..], m);
        assert [] + Matching((a + b)[1..], m) == Matching((a + b)[1..], m);
      }
    }
  }

  lemma ChildrenUnfold(s: seq<Node>)
    requires s != []
    ensures Children(s) == (if s[0].Element? then [s[0]] else []) + Children(s[1..])
  {
  }

  lemma {:induction false} ChildrenConcat(a: seq<Node>, b: seq<Node>)
    ensures Children(a + b) == Children(a) + Children(b)
  {
    if a == [] {
      assert a + b == b;
    } else {
      hide Children;
      TailConcat(a, b);
      ChildrenUnfold(a);
      ChildrenUnfold(a + b);
      ChildrenConcat(a[1..], b);
    }
  }

  // ----- Building -----

  /** The first child of an element with a tag. */
  function First(n: Node, tag: string): Option<Node> {
    FirstMatching(ElementNodes(n), Tag(tag))
  }

  /** `doc.createElement(tag)` */
  function CreateElement(tag: string): Node {
    Element(tag, map[], [])
  }

  /** `e.setAttribute(name, value)` */
  function SetAttribute(e: Node, name: string, value: string): (r: Node)
    requires e.Element?
    ensures r.Element?
  {
    e.(attrs := e.attrs[name := value])
  }

  /** `e.appendChild(c)`, if there is a c. */
  function AppendChild(e: Node, c: Option<Node>): (r: Node)
    requires e.Element?
    ensures r.Element?
  {
    if c.Some? then e.(nodes := e.nodes + [c.value]) else e
  }

  /** An element holding a text node. */
  function TextElement(tag: string, text: string): (r: Node)
    ensures TextContent(r) == text
  {
    var r := Element(tag, map[], [Text(text)]);
    assert r.nodes[1..] == [] && TextOf(r.nodes) == text + TextOf([]);
    r
  }

  predicate HasTag(c: Option<Node>, tag: string) {
    c.Some? ==> c.value.Element? && c.value.tag == tag
  }

  function Present(kids: seq<Option<Node>>): seq<Node> {
    if kids == [] then [] else (if kids[0].Some? then [kids[0].value] else []) + Present(kids[1..])
  }

  /** e was filled child by child: kids are the children asked for, in order, under these tags. */
  ghost predicate Filled(e: Node, tags: seq<string>, kids: seq<Option<Node>>) {
    && e.Element? && e.nodes == Present(kids)
    && |tags| == |kids|
    && forall i :: 0 <= i < |kids| ==> HasTag(kids[i], tags[i])
  }

  lemma FilledCreate(tag: string)
    ensures Filled(CreateElement(tag), [], [])
  {
  }

  lemma FilledAttribute(e: Node, name: string, value: string, tags: seq<string>, kids: seq<Option<Node>>)
    requires Filled(e, tags, kids)
    ensures Filled(SetAttribute(e, name, value), tags, kids)
  {
  }

  lemma FilledAppend(e: Node, tags: seq<string>, kids: seq<Option<Node>>, tag: string, c: Option<Node>)
    requires Filled(e, tags, kids) && HasTag(c, tag)
    ensures Filled(AppendChild(e, c), tags + [tag], kids + [c])
  {
    PresentConcat(kids, [c]);
    assert [c][1..] == [];
  }

  /** One more child is asked for; what was asked for so far is kept beside the element. */
  method Fill(e: Node, ghost tags: seq<string>, ghost kids: seq<Option<Node>>, tag: string, c: Option<Node>)
    returns (r: Node, ghost allTags: seq<string>, ghost allKids: seq<Option<Node>>)
    requires e.Element? && Filled(e, tags, kids) && HasTag(c, tag)
    ensures r.Element? && r.tag == e.tag && r.attrs == e.attrs
    ensures allTags == tags + [tag] && allKids == kids + [c] && Filled(r, allTags, allKids)
  {
    r := AppendChild(e, c);
    FilledAppend(e, tags, kids, tag, c);
    allTags, allKids := tags + [tag], kids + [c];
  }

  lemma PresentUnfold(s: seq<Option<Node>>)
    requires s != []
    ensures Present(s) == (if s[0].Some? then [s[0].value] else []) + Present(s[1..])
  {
  }

  lemma {:induction false} PresentConcat(a: seq<Option<Node>>, b: seq<Option<Node>>)
    ensures Present(a + b) == Present(a) + Present(b)
  {
    if a == [] {
      assert a + b == b;
    } else {
      hide Present;
      TailConcat(a, b);
      PresentUnfold(a);
      PresentUnfold(a + b);
      PresentConcat(a[1..], b);
    }
  }

  /** The first child with one of the tags is the one asked for under it, if any. */
  lemma FilledFirst(e: Node, tags: seq<string>, kids: seq<Option<Node>>, i: nat)
    requires Filled(e, tags, kids) && i < |tags|
    requires forall j :: 0 <= j < |tags| && j != i ==> tags[j] != tags[i]
    ensures First(e, tags[i]) == kids[i]
  {
    PresentFirst(tags, kids, tags[i], Some(i));
  }

  lemma FilledNone(e: Node, tags: seq<string>, kids: seq<Option<Node>>, tag: string)
    requires Filled(e, tags, kids) && tag !in tags
    ensures First(e, tag) == None
  {
    PresentFirst(tags, kids, tag, None);
  }

  lemma {:induction false} PresentFirst(tags: seq<string>, kids: seq<Option<Node>>, tag: string, at: Option<nat>)
    requires |tags| == |kids| && forall i :: 0 <= i < |kids| ==> HasTag(kids[i], tags[i])
    requires at.Some? ==> at.value < |kids| && tags[at.value] == tag
    requires forall j :: 0 <= j < |kids| && at != Some(j) ==> tags[j] != tag
    ensures FirstMatching(Children(Present(kids)), Tag(tag)) == if at.Some? then kids[at.value] else None
    decreases |kids|
  {
    if kids != [] {
      var rest := if at == Some(0) || at.None? then None else Some(at.value - 1);
      PresentFirst(tags[1..], kids[1..], tag, rest);
      var front := if kids[0].Some? then [kids[0].value] else [];
      ChildrenConcat(front, Present(kids[1..]));
      FirstConcat(Children(front), Children(Present(kids[1..])), Tag(tag));
      if kids[0].Some? {
        assert [kids[0].value][1..] == [];
      }
    }
  }

  /** The children asked for under one tag. */
  function Under(tags: seq<string>, kids: seq<Option<Node>>, tag: string): seq<Option<Node>>
    requires |tags| == |kids|
  {
    if kids == [] then []
    else (if tags[0] == tag then [kids[0]] else []) + Under(tags[1..], kids[1..], tag)
  }

  /** All children with a tag are those asked for under it, in order. */
  lemma FilledChildren(e: Node, tags: seq<string>, kids: seq<Option<Node>>, tag: string)
    requires Filled(e, tags, kids)
    ensures GetChildren(Some(e), [Tag(tag)]) == Present(Under(tags, kids, tag))
  {
    assert [Tag(tag)][..0] == [];
    PresentUnder(tags, kids, tag);
  }

  lemma {:induction false} PresentUnder(tags: seq<string>, kids: seq<Option<Node>>, tag: string)
    requires |tags| == |kids| && forall i :: 0 <= i < |kids| ==> HasTag(kids[i], tags[i])
    ensures Matching(Children(Present(kids)), Tag(tag)) == Present(Under(tags, kids, tag))
    decreases |kids|
  {
    if kids != [] {
      PresentUnder(tags[1..], kids[1..], tag);
      var front := if kids[0].Some? then [kids[0].value] else [];
      ChildrenConcat(front, Present(kids[1..]));
      MatchingConcat(Children(front), Children(Present(kids[1..])), Tag(tag));
      PresentConcat(if tags[0] == tag then [kids[0]] else [], Under(tags[1..], kids[1..], tag));
      OneChild(kids[0], tags[0], tag);
    }
  }

  lemma OneChild(c: Option<Node>, own: string, tag: string)
    requires HasTag(c, own)
    ensures Matching(Children(if c.Some? then [c.value] else []), Tag(tag)) == Present(if own == tag then [c] else [])
  {
    assert [c][1..] == [];
    if c.Some? {
      assert [c.value][1..] == [];
    }
  }

  lemma {:induction false} FirstConcat(a: seq<Node>, b: seq<Node>, m: Match)
    ensures FirstMatching(a + b, m) == if FirstMatching(a, m).Some? then FirstMatching(a, m) else FirstMatching(b, m)
  {
    hide ElementMatches;
    if a == [] {
      assert a + b == b;
    } else {
      TailConcat(a, b);
      FirstConcat(a[1..], b, m);
    }
  }

  /** Following one tag is taking the first child with that tag. */
  lemma GetChildFirst(n: Node, tag: string)
    ensures GetChild(Some(n), [Tag(tag)]) == First(n, tag)
  {
    assert [Tag(tag)][1..] == [];
  }

  lemma GetChildFirstTwice(n: Node, outer: string, inner: string)
    ensures GetChild(Some(n), [Tag(outer), Tag(inner)])
         == if First(n, outer).None? then None else First(First(n, outer).value, inner)
  {
    assert [Tag(outer), Tag(inner)] == [Tag(outer)] + [Tag(inner)];
    GetChildCompose(Some(n), [Tag(outer)], [Tag(inner)]);
    GetChildFirst(n, outer);
    if First(n, outer).Some? {
      GetChildFirst(First(n, outer).value, inner);
    } else {
      NoParent([Tag(inner)]);
    }
  }
}
