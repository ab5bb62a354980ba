/** The registry document as the driver sees it, and the filter that drops
    extensions the target API list does not support before the registry is
    loaded (scripts/generate_source.py, line 141). */
module Registry {

  import Text
  import Sequences

  /** An XML element: its tag, its attributes and its child elements. Text
      content plays no part in the filter and is not modelled. */
  datatype Element = Element(tag: string, attrs: map<string, string>, children: seq<Element>)

  /** The extension survives the API list: it has no `supported` attribute,
      or some API of the list is one of the comma-separated tokens of it. */
  predicate Supports(e: Element, apiList: seq<string>): (supported: bool)
    ensures "supported" !in e.attrs ==> supported
    ensures apiList == [] ==> (supported <==> "supported" !in e.attrs)
  {
    "supported" !in e.attrs
    || exists api :: api in apiList && api in Text.Split(e.attrs["supported"], ',')
  }

  /** A child of an `extensions` element stays unless it is an `extension`
      element that does not support the API list. */
  predicate Keeps(e: Element, apiList: seq<string>): (keep: bool)
    ensures e.tag != "extension" || "supported" !in e.attrs ==> keep
    ensures apiList == [] ==> (keep <==> e.tag != "extension" || "supported" !in e.attrs)
  {
    e.tag != "extension" || Supports(e, apiList)
  }

  /** The children of one `extensions` element after the filter. */
  function KeepSupported(children: seq<Element>, apiList: seq<string>): (kept: seq<Element>)
    ensures forall x :: multiset(kept)[x] == if Keeps(x, apiList) then multiset(children)[x] else 0
    ensures Sequences.Subsequence(kept, children)
    decreases |children|
  {
    if children == [] then []
    else
      var n := |children|;
      var front := KeepSupported(children[..n - 1], apiList);
      assert children == children[..n - 1] + [children[n - 1]];
      if Keeps(children[n - 1], apiList) then
        assert (front + [children[n - 1]])[..|front|] == front;
        front + [children[n - 1]]
      else front
  }

  /** One top-level child of the document after the filter: only `extensions`
      elements are touched. */
  function FilterGroup(group: Element, apiList: seq<string>): Element
  {
    if group.tag == "extensions" then group.(children := KeepSupported(group.children, apiList))
    else group
  }

  /** The whole document after the filter. */
  function FilterExtensions(root: Element, apiList: seq<string>): (filtered: Element)
    ensures filtered.tag == root.tag && filtered.attrs == root.attrs
    ensures |filtered.children| == |root.children|
    ensures forall i :: 0 <= i < |root.children| && root.children[i].tag != "extensions" ==>
              filtered.children[i] == root.children[i]
    ensures forall i :: 0 <= i < |root.children| && root.children[i].tag == "extensions" ==>
              filtered.children[i].tag == "extensions" && filtered.children[i].attrs == root.children[i].attrs
              && filtered.children[i].children == KeepSupported(root.children[i].children, apiList)
  {
    root.(children := seq(|root.children|, i requires 0 <= i < |root.children| => FilterGroup(root.children[i], apiList)))
  }

  /** The registry document while a generator run owns it. `Parse` stands for
      `ElementTree.parse`, which builds a fresh tree from the registry file for
      every target. */
  class DocumentTree {
    var root: Element

    constructor Parse(document: Element)
      ensures root == document
    {
      root := document;
    }

    /** The in-place removal of line 141: every `extension` child of a
        top-level `extensions` element that does not support the API list is
        removed from its parent. */
    method RemoveUnsupportedExtensions(apiList: seq<string>)
      modifies this
      ensures root == FilterExtensions(old(root), apiList)
    {
      var groups := root.children;
      var filtered: seq<Element> := [];
      var i := 0;
      while i < |groups|
        invariant 0 <= i <= |groups|
        invariant |filtered| == i
        invariant forall k :: 0 <= k < i ==> filtered[k] == FilterGroup(groups[k], apiList)
      {
        var group := groups[i];
        if group.tag == "extensions" {
          var kept: seq<Element> := [];
          var j := 0;
          while j < |group.children|
            invariant 0 <= j <= |group.children|
            invariant kept == KeepSupported(group.children[..j], apiList)
          {
            assert group.children[..j + 1][..j] == group.children[..j];
            var e := group.children[j];
            if e.tag != "extension" || Supports(e, apiList) {
              kept := kept + [e];
            }
            j := j + 1;
          }
          assert group.children[..j] == group.children;
          group := group.(children := kept);
        }
        filtered := filtered + [group];
        i := i + 1;
      }
      root := root.(children := filtered);
    }
  }

  /** With a single-token `supported` attribute, the extension is kept exactly
      when that token is one of the listed APIs. */
  lemma {:induction false} SingleTokenSupport(e: Element, apiList: seq<string>, token: string)
    requires e.tag == "extension" && "supported" in e.attrs && e.attrs["supported"] == token
    requires ',' !in token
    ensures Keeps(e, apiList) <==> token in apiList
  {
    Text.SplitWithoutSeparator(token, ',');
  }

  /** With `supported="a,b"`, the extension is kept exactly when `a` or `b`
      is one of the listed APIs. */
  lemma {:induction false} TwoTokenSupport(e: Element, apiList: seq<string>, a: string, b: string)
    requires e.tag == "extension" && "supported" in e.attrs && e.attrs["supported"] == a + "," + b
    requires ',' !in a && ',' !in b
    ensures Keeps(e, apiList) <==> a in apiList || b in apiList
  {
    Text.SplitAfterPiece(a, ',', b);
    Text.SplitWithoutSeparator(b, ',');
    assert Text.Split(e.attrs["supported"], ',') == [a, b];
  }

  /** Matching is per token and exact: an API whose name is a prefix of a
      supported token does not match it. */
  lemma ExactTokenMatch()
    ensures !Keeps(Element("extension", map["supported" := "vulkansc"], []), ["vulkan"])
    ensures Keeps(Element("extension", map["supported" := "vulkan,vulkansc"], []), ["vulkansc"])
  {
    SingleTokenSupport(Element("extension", map["supported" := "vulkansc"], []), ["vulkan"], "vulkansc");
    assert "vulkan,vulkansc" == "vulkan" + "," + "vulkansc";
    TwoTokenSupport(Element("extension", map["supported" := "vulkan,vulkansc"], []), ["vulkansc"], "vulkan", "vulkansc");
  }

  /** The filter of one more child: the filter of the others, followed by the
      new child when it stays. */
  lemma KeepSupportedAppend(front: seq<Element>, last: Element, apiList: seq<string>)
    ensures KeepSupported(front + [last], apiList) ==
              if Keeps(last, apiList) then KeepSupported(front, apiList) + [last] else KeepSupported(front, apiList)
  {
    assert (front + [last])[..|front|] == front;
  }

  /** Children that all stay are left as they are. */
  lemma {:induction false} KeepSupportedKeepsAll(children: seq<Element>, apiList: seq<string>)
    requires forall k :: 0 <= k < |children| ==> Keeps(children[k], apiList)
    ensures KeepSupported(children, apiList) == children
    decreases |children|
  {
    if children != [] {
      var front, last := children[..|children| - 1], children[|children| - 1];
      assert children == front + [last];
      KeepSupportedKeepsAll(front, apiList);
      KeepSupportedAppend(front, last, apiList);
    }
  }

  /** Filtering the children of an `extensions` element again changes nothing. */
  lemma KeepSupportedIdempotent(children: seq<Element>, apiList: seq<string>)
    ensures KeepSupported(KeepSupported(children, apiList), apiList) == KeepSupported(children, apiList)
  {
    var kept := KeepSupported(children, apiList);
    forall k | 0 <= k < |kept| ensures Keeps(kept[k], apiList) {
      assert multiset(kept)[kept[k]] > 0;
    }
    KeepSupportedKeepsAll(kept, apiList);
  }

  /** Filtering a filtered document again changes nothing. */
  lemma FilterExtensionsIdempotent(root: Element, apiList: seq<string>)
    ensures FilterExtensions(FilterExtensions(root, apiList), apiList) == FilterExtensions(root, apiList)
  {
    var once := FilterExtensions(root, apiList);
    var twice := FilterExtensions(once, apiList);
    forall i | 0 <= i < |root.children| ensures twice.children[i] == once.children[i] {
      if root.children[i].tag == "extensions" {
        KeepSupportedIdempotent(root.children[i].children, apiList);
      }
    }
    assert twice.children == once.children;
  }

  /** A longer API list keeps at least the extensions a shorter one keeps:
      the combined list `[api, "vulkan"]` never loses what `[api]` keeps. */
  lemma WiderApiListKeepsMore(e: Element, apiList: seq<string>, wider: seq<string>)
    requires forall api :: api in apiList ==> api in wider
    requires Keeps(e, apiList)
    ensures Keeps(e, wider)
  {
  }
}
