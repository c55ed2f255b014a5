/** The Parser: it turns an already-parsed message into a Part tree
    (createTree) and answers queries over that tree (collect,
    collectContentParts). */
module Parsing {
  import opened MessageParts
  import opened Parts

  /** p is the part createTree makes for leaf and hangs directly below root. */
  ghost predicate Realises(p: Part, leaf: Leaf, root: Part)
    reads p
  {
    p.parent == root && Filled(p, leaf)
  }

  /** p is a part of the leaf's class, filled from the leaf, with no sub-parts.
      It reads no parent link, so appending p somewhere never disturbs it. */
  ghost predicate Filled(p: Part, leaf: Leaf)
    reads p`subParts, p`singleType, p`singleContent, p`altTypes, p`altContent
  {
    p.subParts == [] &&
    match leaf
    case AttachmentLeaf =>
      p.kind == AttachmentPart && p.singleType == "" && p.singleContent == []
    case TextLeaf(texts) =>
      p.kind == SinglePart && p.singleType == "plaintext" && |p.singleContent| == |texts| &&
      forall i :: 0 <= i < |texts| ==> IsContent(p.singleContent[i], PlainTextContent, texts[i], p)
    case AlternativeLeaf(html, plaintext) =>
      p.kind == AlternativePart && p.altTypes == ["html", "plaintext"] &&
      p.altContent.Keys == {"html", "plaintext"} &&
      |p.altContent["html"]| == 1 && IsContent(p.altContent["html"][0], HtmlContent, html, p) &&
      |p.altContent["plaintext"]| == 1 &&
      IsContent(p.altContent["plaintext"][0], PlainTextContent, plaintext, p)
    case HtmlLeaf(html) =>
      p.kind == SinglePart && p.singleType == "html" && |p.singleContent| == 1 &&
      IsContent(p.singleContent[0], HtmlContent, html, p)
  }

  /** The content types a part made for leaf offers. */
  function LeafTypes(leaf: Leaf): seq<string>
  {
    match leaf
    case AttachmentLeaf => [""]
    case TextLeaf(_) => ["plaintext"]
    case AlternativeLeaf(_, _) => ["html", "plaintext"]
    case HtmlLeaf(_) => ["html"]
  }

  /** The payloads content() returns for a part made for leaf. */
  function LeafPayloads(leaf: Leaf): seq<string>
  {
    match leaf
    case AttachmentLeaf => []
    case TextLeaf(texts) => texts
    case AlternativeLeaf(html, _) => [html]
    case HtmlLeaf(html) => [html]
  }

  function Payloads(cs: seq<Content>): (r: seq<string>)
    ensures |r| == |cs| && forall i :: 0 <= i < |cs| ==> r[i] == cs[i].Content()
  {
    seq(|cs|, i requires 0 <= i < |cs| => cs[i].Content())
  }

  /** What the presentation layer sees of a part made from a leaf: its types,
      its contents and their owner, and the empty annotations of its chain. */
  lemma RealisedPart(p: Part, leaf: Leaf, root: Part)
    requires Realises(p, leaf, root) && root.parent == null
    ensures p.AvailableContents() == LeafTypes(leaf)
    ensures !p.HasSubParts()
    ensures IsAncestry(p, [p, root])
    ensures p.kind == AlternativePart ==>
      p.ContentsOf("html") == p.Contents() && p.ContentsOf("plaintext")[0].owner == p
    ensures Payloads(p.Contents()) == LeafPayloads(leaf)
    ensures forall c :: c in p.Contents() ==>
      (c.owner == p && c.Charset() == "utf-8" && c.Encryptions([p, root]) == [] && c.Signatures([p, root]) == [])
  {
  }

  /** What a select or filter callback is given of a part. */
  datatype PartInfo = PartInfo(kind: PartKind, typeName: string, availableContents: seq<string>, hasSubParts: bool)

  function Info(p: Part): PartInfo
    reads p
  {
    PartInfo(p.kind, p.Type(), p.AvailableContents(), p.HasSubParts())
  }

  /** Each sub-part of a valid part is valid and lies strictly below it. */
  lemma SubPartValid(start: Part, i: nat)
    requires start.Valid() && i < |start.subParts|
    ensures start.subParts[i].Valid() && start.subParts[i].Repr < start.Repr
  {
  }

  /** What collect returns for the first k sub-parts of start, in order. */
  function Collected(start: Part, k: nat, select: PartInfo -> bool, isT: PartKind -> bool,
                     filter: PartInfo -> bool): seq<Part>
    reads start, start.Repr
    requires start.Valid() && k <= |start.subParts|
    decreases start.Repr, 0, k
  {
    if k == 0 then []
    else Collected(start, k - 1, select, isT, filter) + CollectedBelow(start.subParts[k - 1], select, isT, filter)
  }

  /** What collect's loop adds for one sub-part: if select accepts it, the
      part itself when it is a T and filter accepts it, followed by what its
      own sub-parts yield; if select rejects it, nothing, and nothing from
      below it either. */
  function CollectedBelow(part: Part, select: PartInfo -> bool, isT: PartKind -> bool,
                          filter: PartInfo -> bool): seq<Part>
    reads part, part.Repr
    requires part.Valid()
    decreases part.Repr, 1
  {
    if select(Info(part)) then
      (if isT(part.kind) && filter(Info(part)) then [part] else []) +
      Collected(part, |part.subParts|, select, isT, filter)
    else []
  }

  /** The parts reachable from start (start excluded) through sub-part links
      on which select holds at every step. */
  ghost function Reach(start: Part, k: nat, select: PartInfo -> bool): set<Part>
    reads start, start.Repr
    requires start.Valid() && k <= |start.subParts|
    decreases start.Repr, k
  {
    if k == 0 then {}
    else
      var part := start.subParts[k - 1];
      Reach(start, k - 1, select) +
        if select(Info(part)) then {part} + Reach(part, |part.subParts|, select) else {}
  }

  /** A part is collected exactly when select holds on it and on every part
      between it and start, the cast to T succeeds and filter holds. */
  lemma {:induction false} CollectedMembers(start: Part, k: nat, select: PartInfo -> bool,
                                            isT: PartKind -> bool, filter: PartInfo -> bool, p: Part)
    requires start.Valid() && k <= |start.subParts|
    ensures p in Collected(start, k, select, isT, filter) <==>
      p in Reach(start, k, select) && isT(p.kind) && filter(Info(p))
    decreases start.Repr, k
  {
    if k > 0 {
      CollectedMembers(start, k - 1, select, isT, filter, p);
      var part := start.subParts[k - 1];
      assert Collected(start, k, select, isT, filter) ==
        Collected(start, k - 1, select, isT, filter) + CollectedBelow(part, select, isT, filter);
      if select(Info(part)) {
        CollectedMembers(part, |part.subParts|, select, isT, filter, p);
      }
    }
  }

  /** Every part reached lies strictly below start and is accepted by select. */
  lemma {:induction false} ReachSelected(start: Part, k: nat, select: PartInfo -> bool, p: Part)
    requires start.Valid() && k <= |start.subParts|
    requires p in Reach(start, k, select)
    ensures select(Info(p)) && p in start.Repr && p != start
    decreases start.Repr, k
  {
    var part := start.subParts[k - 1];
    if p in Reach(start, k - 1, select) {
      ReachSelected(start, k - 1, select, p);
    } else if p != part {
      ReachSelected(part, |part.subParts|, select, p);
    }
  }

  /** The parts of ps, in order, that are T and pass filter. */
  function Keep(ps: seq<Part>, isT: PartKind -> bool, filter: PartInfo -> bool): seq<Part>
    reads ps
  {
    if ps == [] then []
    else (if isT(ps[0].kind) && filter(Info(ps[0])) then [ps[0]] else []) + Keep(ps[1..], isT, filter)
  }

  lemma {:induction false} KeepAppend(a: seq<Part>, b: seq<Part>, isT: PartKind -> bool, filter: PartInfo -> bool)
    ensures Keep(a + b, isT, filter) == Keep(a, isT, filter) + Keep(b, isT, filter)
  {
    if a == [] {
      assert a + b == b;
    } else {
      assert (a + b)[1..] == a[1..] + b;
      KeepAppend(a[1..], b, isT, filter);
    }
  }

  lemma KeepOne(part: Part, isT: PartKind -> bool, filter: PartInfo -> bool)
    ensures Keep([part], isT, filter) == if isT(part.kind) && filter(Info(part)) then [part] else []
  {
  }

  function AnyKind(kind: PartKind): bool { true }

  function AcceptAll(info: PartInfo): bool { true }

  /** The cast and filter only drop parts from the result, they never prune:
      collect returns the selected walk with the non-T and filtered parts
      taken out. */
  lemma {:induction false} CollectedIsKeptWalk(start: Part, k: nat, select: PartInfo -> bool,
                                               isT: PartKind -> bool, filter: PartInfo -> bool)
    requires start.Valid() && k <= |start.subParts|
    ensures Collected(start, k, select, isT, filter) ==
      Keep(Collected(start, k, select, AnyKind, AcceptAll), isT, filter)
    decreases start.Repr, 0, k
  {
    if k > 0 {
      var part := start.subParts[k - 1];
      SubPartValid(start, k - 1);
      CollectedIsKeptWalk(start, k - 1, select, isT, filter);
      CollectedBelowIsKept(part, select, isT, filter);
      var before := Collected(start, k - 1, select, AnyKind, AcceptAll);
      var below := CollectedBelow(part, select, AnyKind, AcceptAll);
      assert Collected(start, k, select, AnyKind, AcceptAll) == before + below;
      assert Collected(start, k, select, isT, filter) ==
        Collected(start, k - 1, select, isT, filter) + CollectedBelow(part, select, isT, filter);
      KeepAppend(before, below, isT, filter);
    }
  }

  /** The same for what the loop adds for one sub-part. */
  lemma {:induction false} CollectedBelowIsKept(part: Part, select: PartInfo -> bool,
                                                isT: PartKind -> bool, filter: PartInfo -> bool)
    requires part.Valid()
    ensures CollectedBelow(part, select, isT, filter) ==
      Keep(CollectedBelow(part, select, AnyKind, AcceptAll), isT, filter)
    decreases part.Repr, 1
  {
    if select(Info(part)) {
      var below := Collected(part, |part.subParts|, select, AnyKind, AcceptAll);
      CollectedIsKeptWalk(part, |part.subParts|, select, isT, filter);
      assert AnyKind(part.kind) && AcceptAll(Info(part));
      assert CollectedBelow(part, select, AnyKind, AcceptAll) == [part] + below;
      KeepAppend([part], below, isT, filter);
      KeepOne(part, isT, filter);
    }
  }

  /** The select of collectContentParts: the part offers html or text. */
  predicate ShowsContent(info: PartInfo)
  {
    "html" in info.availableContents || "text" in info.availableContents
  }

  /** The select collectContentParts evidently means: the part offers html or
      plain text, the type name the text fill actually records. */
  predicate ShowsContentCorrected(info: PartInfo)
  {
    "html" in info.availableContents || "plaintext" in info.availableContents
  }

  /** A single part holding plain text is never a content part. */
  lemma PlainTextNeverCollected(start: Part, p: Part)
    requires start.Valid()
    requires p.kind == SinglePart && p.singleType == "plaintext"
    ensures p !in Collected(start, |start.subParts|, ShowsContent, AnyKind, AcceptAll)
  {
    CollectedMembers(start, |start.subParts|, ShowsContent, AnyKind, AcceptAll, p);
    if p in Reach(start, |start.subParts|, ShowsContent) {
      ReachSelected(start, |start.subParts|, ShowsContent, p);
    }
  }

  /** A filled alternative part directly below start is always a content part. */
  lemma {:induction false} AlternativeChildCollected(start: Part, k: nat, i: nat)
    requires start.Valid() && i < k <= |start.subParts|
    requires start.subParts[i].kind == AlternativePart && "html" in start.subParts[i].altTypes
    ensures start.subParts[i] in Collected(start, k, ShowsContent, AnyKind, AcceptAll)
  {
    if k - 1 > i {
      AlternativeChildCollected(start, k - 1, i);
    }
  }

  /** The parts among the first k of parts whose leaf satisfies shown, in order. */
  ghost function PartsFor(parts: seq<Part>, leaves: seq<Leaf>, shown: Leaf -> bool, k: nat): seq<Part>
    requires |parts| == |leaves| && k <= |parts|
  {
    if k == 0 then []
    else PartsFor(parts, leaves, shown, k - 1) + if shown(leaves[k - 1]) then [parts[k - 1]] else []
  }

  /** Below a root whose sub-parts have no sub-parts of their own, collecting
      with select picks exactly the sub-parts whose leaf satisfies shown,
      whenever select and shown agree part by part. */
  lemma {:induction false} FlatCollected(root: Part, leaves: seq<Leaf>, select: PartInfo -> bool,
                                         shown: Leaf -> bool, k: nat)
    requires root.Valid() && |root.subParts| == |leaves| && k <= |leaves|
    requires forall i :: 0 <= i < |leaves| ==>
      root.subParts[i].subParts == [] && select(Info(root.subParts[i])) == shown(leaves[i])
    ensures Collected(root, k, select, AnyKind, AcceptAll) == PartsFor(root.subParts, leaves, shown, k)
  {
    if k > 0 {
      FlatCollected(root, leaves, select, shown, k - 1);
      var part := root.subParts[k - 1];
      SubPartValid(root, k - 1);
      assert Collected(part, 0, select, AnyKind, AcceptAll) == [];
      assert CollectedBelow(part, select, AnyKind, AcceptAll) == if shown(leaves[k - 1]) then [part] else [] by {
        assert [part] + [] == [part];
      }
    }
  }

  /** The leaves collectContentParts shows as written: alternatives and html. */
  predicate IsContentLeaf(leaf: Leaf)
  {
    leaf.AlternativeLeaf? || leaf.HtmlLeaf?
  }

  /** The leaves it evidently means to show: plain text as well. */
  predicate IsContentLeafCorrected(leaf: Leaf)
  {
    leaf.AlternativeLeaf? || leaf.HtmlLeaf? || leaf.TextLeaf?
  }

  /** Each of parts is the part createTree made for the leaf at the same place. */
  ghost predicate AllRealise(parts: seq<Part>, leaves: seq<Leaf>, root: Part)
    reads parts
  {
    |parts| == |leaves| && forall i :: 0 <= i < |parts| ==> Realises(parts[i], leaves[i], root)
  }

  lemma AllRealiseConcat(a: seq<Part>, la: seq<Leaf>, b: seq<Part>, lb: seq<Leaf>, root: Part)
    requires AllRealise(a, la, root) && AllRealise(b, lb, root)
    ensures AllRealise(a + b, la + lb, root)
  {
  }

  /** No part occurs twice in ps. */
  predicate Distinct(ps: seq<Part>)
  {
    forall i, j :: 0 <= i < j < |ps| ==> ps[i] != ps[j]
  }

  /** In a valid part no sub-part occurs twice: each has its own subtree, and
      each lies in its own subtree. */
  lemma {:induction false} ValidSubPartsDistinct(p: Part)
    requires p.Valid()
    ensures Distinct(p.subParts)
  {
  }


  /** Whether collectContentParts' select accepts a part made for a leaf is
      decided by the leaf alone. */
  lemma ShowsContentOfLeaf(p: Part, leaf: Leaf, root: Part)
    requires Realises(p, leaf, root) && root.parent == null
    ensures ShowsContent(Info(p)) == IsContentLeaf(leaf)
    ensures ShowsContentCorrected(Info(p)) == IsContentLeafCorrected(leaf)
  {
  }

  /** The content parts of a parsed message, as written: the parts made for
      alternative and html leaves, in order; text and attachment parts never. */
  lemma ContentPartsOfParsedTree(root: Part, leaves: seq<Leaf>)
    requires root.Valid() && root.parent == null && AllRealise(root.subParts, leaves, root)
    ensures Collected(root, |root.subParts|, ShowsContent, AnyKind, AcceptAll) ==
      PartsFor(root.subParts, leaves, IsContentLeaf, |leaves|)
    ensures Collected(root, |root.subParts|, ShowsContentCorrected, AnyKind, AcceptAll) ==
      PartsFor(root.subParts, leaves, IsContentLeafCorrected, |leaves|)
  {
    forall i | 0 <= i < |leaves|
      ensures root.subParts[i].subParts == []
      ensures ShowsContent(Info(root.subParts[i])) == IsContentLeaf(leaves[i])
      ensures ShowsContentCorrected(Info(root.subParts[i])) == IsContentLeafCorrected(leaves[i])
    {
      ShowsContentOfLeaf(root.subParts[i], leaves[i], root);
    }
    FlatCollected(root, leaves, ShowsContent, IsContentLeaf, |leaves|);
    FlatCollected(root, leaves, ShowsContentCorrected, IsContentLeafCorrected, |leaves|);
  }

  /** A message whose only child is a text part: as written collectContentParts
      finds nothing in it; with the corrected select it finds the text part. */
  lemma TextOnlyMessageContentParts(message: MessagePart, root: Part)
    requires |message.subParts| == 1
    requires message.subParts[0].casts.text && !message.subParts[0].casts.attachment
    requires root.Valid() && root.parent == null && AllRealise(root.subParts, Flatten(message), root)
    ensures Collected(root, |root.subParts|, ShowsContent, AnyKind, AcceptAll) == []
    ensures Collected(root, |root.subParts|, ShowsContentCorrected, AnyKind, AcceptAll) == root.subParts
  {
    var leaf := TextLeaf(Texts(message.subParts[0].subParts));
    assert Contribution(message.subParts[0]) == [leaf];
    assert FlattenPrefix(message, 0) == [];
    assert Flatten(message) == [leaf];
    ContentPartsOfParsedTree(root, [leaf]);
    assert root.subParts[..0] == [];
  }

  /** The first two steps of each classified branch of createTree: a new part
      of the class the classification calls for (an AttachmentPart for an
      attachment, a SinglePart for text or html, an AlternativePart for an
      alternative), filled from mp by the matching fillFrom. */
  method NewPart(mp: MessagePart) returns (part: Part)
    requires Classify(mp).Classified?
    ensures fresh(part) && part.parent == null && part.Valid() && part.Repr == {part}
    ensures Filled(part, Classify(mp).leaf)
  {
    if mp.casts.attachment {
      part := new Part(AttachmentPart);
      part.FillFromAttachment(mp);
    } else if mp.casts.text {
      part := new Part(SinglePart);
      part.FillFromText(mp);
    } else if mp.casts.alternative {
      part := new Part(AlternativePart);
      part.FillFromAlternative(mp);
    } else {
      part := new Part(SinglePart);
      part.FillFromHtml(mp);
    }
  }

  class Parser {
    var tree: Part // ParserPrivate::mTree

    ghost predicate Valid()
      reads this, tree, tree.Repr
    {
      tree.Valid() && tree.kind == BasePart && tree.parent == null
    }

    /** The message is given already parsed; the root is a fresh base part and
        createTree hangs one part per leaf of the message below it. */
    constructor (message: MessagePart)
      ensures Valid() && fresh(tree)
      ensures AllRealise(tree.subParts, Flatten(message), tree)
      ensures forall i :: 0 <= i < |tree.subParts| ==> fresh(tree.subParts[i])
      ensures Distinct(tree.subParts)
    {
      tree := new Part(BasePart);
      new;
      CreateTree(message, tree);
      assert tree.subParts[0..] == tree.subParts;
      ValidSubPartsDistinct(tree);
    }

    /** ParserPrivate::createTree: one new part for each classified child of
        start, appended to the root in order; an unclassified child is
        descended into. Everything lands directly below the root (mTree),
        whatever part the tree argument names; every call passes the root. */
    method CreateTree(start: MessagePart, t: Part)
      modifies tree`subParts, tree`Repr
      ensures |tree.subParts| >= |old(tree.subParts)| && tree.subParts[..|old(tree.subParts)|] == old(tree.subParts)
      ensures AllRealise(tree.subParts[|old(tree.subParts)|..], Flatten(start), tree)
      ensures forall i :: |old(tree.subParts)| <= i < |tree.subParts| ==> fresh(tree.subParts[i])
      ensures old(tree.Valid()) ==> tree.Valid() && Distinct(tree.subParts)
      ensures t != tree ==> t.subParts == old(t.subParts)
      decreases start, 0
    {
      ghost var n := |tree.subParts|;
      for i := 0 to |start.subParts|
        invariant |tree.subParts| >= n && tree.subParts[..n] == old(tree.subParts)
        invariant AllRealise(tree.subParts[n..], FlattenPrefix(start, i), tree)
        invariant forall j :: n <= j < |tree.subParts| ==> fresh(tree.subParts[j])
        invariant old(tree.Valid()) ==> tree.Valid()
      {
        ghost var m := |tree.subParts|;
        ghost var done := tree.subParts[n..];
        CreateChild(start.subParts[i], t);
        assert tree.subParts[n..] == done + tree.subParts[m..];
        AllRealiseConcat(done, FlattenPrefix(start, i), tree.subParts[m..], Contribution(start.subParts[i]), tree);
        assert FlattenPrefix(start, i + 1) == FlattenPrefix(start, i) + Contribution(start.subParts[i]);
      }
      if old(tree.Valid()) {
        ValidSubPartsDistinct(tree);
      }
    }

    /** The body of createTree's loop for one child mp: a classified child
        becomes one new part of its class, filled from mp and appended to the
        root; any other child is descended into with the same tree argument. */
    method CreateChild(mp: MessagePart, t: Part)
      modifies tree`subParts, tree`Repr
      ensures |tree.subParts| >= |old(tree.subParts)| && tree.subParts[..|old(tree.subParts)|] == old(tree.subParts)
      ensures AllRealise(tree.subParts[|old(tree.subParts)|..], Contribution(mp), tree)
      ensures forall i :: |old(tree.subParts)| <= i < |tree.subParts| ==> fresh(tree.subParts[i])
      ensures old(tree.Valid()) ==> tree.Valid()
      ensures t != tree ==> t.subParts == old(t.subParts)
      decreases mp, 1
    {
      if Classify(mp).Classified? {
        var part := NewPart(mp);
        tree.AppendSubPart(part);
        assert tree.subParts[|old(tree.subParts)|..] == [part];
      } else {
        CreateTree(mp, t);
      }
    }

    /** Parser::collect: a pre-order walk below start that skips the whole
        subtree of every part select rejects, returning the T parts that
        filter accepts. */
    method Collect(start: Part, select: PartInfo -> bool, isT: PartKind -> bool, filter: PartInfo -> bool)
      returns (ret: seq<Part>)
      requires start.Valid()
      ensures ret == Collected(start, |start.subParts|, select, isT, filter)
      decreases start.Repr, 0
    {
      ret := [];
      for i := 0 to |start.subParts|
        invariant ret == Collected(start, i, select, isT, filter)
      {
        SubPartValid(start, i);
        var found := CollectBelow(start.subParts[i], select, isT, filter);
        ret := ret + found;
      }
    }

    /** The body of collect's loop for one sub-part. */
    method CollectBelow(part: Part, select: PartInfo -> bool, isT: PartKind -> bool, filter: PartInfo -> bool)
      returns (ret: seq<Part>)
      requires part.Valid()
      ensures ret == CollectedBelow(part, select, isT, filter)
      decreases part.Repr, 1
    {
      ret := [];
      if select(Info(part)) {
        if isT(part.kind) && filter(Info(part)) {
          ret := ret + [part];
        }
        var below := Collect(part, select, isT, filter);
        ret := ret + below;
      }
    }

    /** Parser::collectContentParts: every part below the root that offers
        html or text, together with everything below such parts that does. */
    method CollectContentParts() returns (ret: seq<Part>)
      requires Valid()
      ensures ret == Collected(tree, |tree.subParts|, ShowsContent, AnyKind, AcceptAll)
      ensures forall p :: p in ret <==> p in Reach(tree, |tree.subParts|, ShowsContent)
      ensures forall p :: p in ret ==> ShowsContent(Info(p))
    {
      ret := Collect(tree, ShowsContent, AnyKind, AcceptAll);
      forall p
        ensures p in ret <==> p in Reach(tree, |tree.subParts|, ShowsContent)
        ensures p in ret ==> ShowsContent(Info(p))
      {
        CollectedMembers(tree, |tree.subParts|, ShowsContent, AnyKind, AcceptAll, p);
        if p in ret {
          ReachSelected(tree, |tree.subParts|, ShowsContent, p);
        }
      }
    }

    /** collectContentParts with the select it evidently means: plain-text
        parts are content parts too. */
    method CollectContentPartsCorrected() returns (ret: seq<Part>)
      requires Valid()
      ensures ret == Collected(tree, |tree.subParts|, ShowsContentCorrected, AnyKind, AcceptAll)
      ensures forall p :: p in ret <==> p in Reach(tree, |tree.subParts|, ShowsContentCorrected)
      ensures forall p :: p in ret ==> ShowsContentCorrected(Info(p))
    {
      ret := Collect(tree, ShowsContentCorrected, AnyKind, AcceptAll);
      forall p
        ensures p in ret <==> p in Reach(tree, |tree.subParts|, ShowsContentCorrected)
        ensures p in ret ==> ShowsContentCorrected(Info(p))
      {
        CollectedMembers(tree, |tree.subParts|, ShowsContentCorrected, AnyKind, AcceptAll, p);
        if p in ret {
          ReachSelected(tree, |tree.subParts|, ShowsContentCorrected, p);
        }
      }
    }
  }
}
