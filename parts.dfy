/** The presentation-side Part tree: Part nodes with an ordered list of
    sub-parts and a parent back-link, the SinglePart and AlternativePart
    variants with their contents, and the Content objects they hold. */
module Parts {
  import opened MessageParts

  /** Annotation records; their own classes are declared in interface.h,
      which is not part of this model. */
  datatype Encryption = Encryption(description: string)
  datatype Signature = Signature(description: string)

  /** The dynamic class of a Part. AttachmentPart shares SinglePart's private
      data: createTree fills it through SinglePartPrivate's attachment overload. */
  datatype PartKind = BasePart | SinglePart | AlternativePart | AttachmentPart

  /** The dynamic class of a Content (HtmlContent or PlainTextContent). */
  datatype ContentKind = HtmlContent | PlainTextContent

  /** A payload owned by a part. Nothing of a Content changes after
      construction, so every field is a constant. */
  class Content {
    const kind: ContentKind
    const payload: string        // ContentPrivate::mContent
    const codec: string := "utf-8" // ContentPrivate::mCodec
    const owner: Part?           // ContentPrivate::mParent

    constructor (kind: ContentKind, content: string, parent: Part?)
      ensures this.kind == kind && Content() == content && owner == parent
    {
      this.kind := kind;
      payload := content;
      owner := parent;
    }

    /** The payload fixed at construction. It reads no mutable state, so no
        later change to the tree can alter it. */
    function Content(): (r: string)
      ensures r == payload
    {
      payload
    }

    /** The charset is the same for every content, whatever it was built from. */
    function Charset(): (r: string)
      ensures r == "utf-8"
    {
      codec
    }

    /** A content has the encryptions of its owning part, none without one. */
    function Encryptions(ghost ancestry: seq<Part>): (r: seq<Encryption>)
      reads ancestry
      requires owner != null ==> IsAncestry(owner, ancestry)
      ensures r == []
    {
      if owner != null then owner.Encryptions(ancestry) else []
    }

    /** A content has the signatures of its owning part, none without one. */
    function Signatures(ghost ancestry: seq<Part>): (r: seq<Signature>)
      reads ancestry
      requires owner != null ==> IsAncestry(owner, ancestry)
      ensures r == []
    {
      if owner != null then owner.Signatures(ancestry) else []
    }
  }

  /** ancestry lists p, its parent, its parent's parent and so on, up to a part
      without a parent: the chain that encryptions() and signatures() walk,
      which ends only when it reaches such a root. */
  ghost predicate IsAncestry(p: Part, ancestry: seq<Part>)
    reads ancestry
  {
    |ancestry| > 0 && ancestry[0] == p && ancestry[|ancestry| - 1].parent == null &&
    forall i :: 0 <= i < |ancestry| - 1 ==> ancestry[i].parent == ancestry[i + 1]
  }

  /** c is a content of the given class and payload that belongs to owner. */
  predicate IsContent(c: Content, kind: ContentKind, payload: string, owner: Part)
  {
    c.kind == kind && c.Content() == payload && c.owner == owner
  }

  class Part {
    const kind: PartKind
    var parent: Part?           // PartPrivate::mParent
    var subParts: seq<Part>     // PartPrivate::mSubParts
    /** The parts at or below this one. */
    ghost var Repr: set<Part>

    var singleType: string             // SinglePartPrivate::mType
    var singleContent: seq<Content>    // SinglePartPrivate::mContent
    var altTypes: seq<string>          // AlternativePartPrivate::mTypes
    var altContent: map<string, seq<Content>> // AlternativePartPrivate::mContent

    /** The parts below this one form a tree: no part is below itself, and
        the subtrees of two different sub-parts share no part (so no sub-part
        occurs twice). It reads no parent link, so setting one never disturbs it. */
    ghost predicate Valid()
      reads this`subParts, this`Repr, Repr`subParts, Repr`Repr
      decreases Repr
    {
      this in Repr &&
      (forall i :: 0 <= i < |subParts| ==>
        subParts[i] in Repr && subParts[i].Repr <= Repr && this !in subParts[i].Repr &&
        subParts[i].Valid()) &&
      (forall i, j :: 0 <= i < j < |subParts| ==> subParts[i].Repr !! subParts[j].Repr)
    }

    constructor (kind: PartKind)
      ensures this.kind == kind && parent == null && subParts == []
      ensures Valid() && Repr == {this}
      ensures singleType == "" && singleContent == [] && altTypes == [] && altContent == map[]
    {
      this.kind := kind;
      parent := null;
      subParts := [];
      Repr := {this};
      singleType := "";
      singleContent := [];
      altTypes := [];
      altContent := map[];
    }

    predicate HasSinglePrivate()
    {
      kind == SinglePart || kind == AttachmentPart
    }

    /** PartPrivate::appendSubPart: the sub-part now names this part as its
        parent and comes after every earlier sub-part, which all stay in place.
        The tree is kept when the sub-part shares no part with this one. */
    method AppendSubPart(subpart: Part)
      modifies this`subParts, this`Repr, subpart`parent
      ensures subpart.parent == this
      ensures subParts == old(subParts) + [subpart]
      ensures Repr == old(Repr) + old(subpart.Repr)
      ensures old(Valid()) && old(subpart.Valid()) && old(Repr !! subpart.Repr) ==> Valid()
    {
      subpart.parent := this;
      subParts := subParts + [subpart];
      Repr := Repr + subpart.Repr;
    }

    function HasSubParts(): (r: bool)
      reads this
      ensures r <==> subParts != []
    {
      |subParts| > 0
    }

    /** The class name type() reports. */
    function Type(): (r: string)
      ensures r == "Part" <==> kind == BasePart
      ensures r == "AlternativePart" <==> kind == AlternativePart
      ensures r == "SinglePart" <==> HasSinglePrivate()
    {
      match kind
      case BasePart => "Part"
      case AlternativePart => "AlternativePart"
      case _ => "SinglePart"
    }

    /** The content types a part offers: none for a base part, the one type of a
        single part, the recorded types of an alternative part. */
    function AvailableContents(): (r: seq<string>)
      reads this
      ensures kind == BasePart ==> r == []
      ensures HasSinglePrivate() ==> |r| == 1 && r[0] == singleType
      ensures kind == AlternativePart ==> r == altTypes
    {
      match kind
      case BasePart => []
      case AlternativePart => altTypes
      case _ => [singleType]
    }

    /** AlternativePart::content(ct): the contents stored under ct, none when
        nothing was ever stored there. */
    function ContentsOf(ct: string): (r: seq<Content>)
      reads this
      ensures ct in altContent ==> r == altContent[ct]
      ensures ct !in altContent ==> r == []
    {
      if ct in altContent then altContent[ct] else []
    }

    /** content(): none for a base part, the content list of a single part, and
        for an alternative part the contents of its first available type (which
        must exist). */
    function Contents(): (r: seq<Content>)
      reads this
      requires kind == AlternativePart ==> |altTypes| > 0
      ensures kind == BasePart ==> r == []
      ensures HasSinglePrivate() ==> r == singleContent
      ensures kind == AlternativePart ==> r == ContentsOf(AvailableContents()[0])
    {
      match kind
      case BasePart => []
      case AlternativePart => ContentsOf(altTypes[0])
      case _ => singleContent
    }

    /** A part has the encryptions of its parent, and none at a root. */
    function Encryptions(ghost ancestry: seq<Part>): (r: seq<Encryption>)
      reads ancestry
      requires IsAncestry(this, ancestry)
      ensures r == []
      decreases |ancestry|
    {
      if parent == null then [] else parent.Encryptions(ancestry[1..])
    }

    /** A part has the signatures of its parent, and none at a root. */
    function Signatures(ghost ancestry: seq<Part>): (r: seq<Signature>)
      reads ancestry
      requires IsAncestry(this, ancestry)
      ensures r == []
      decreases |ancestry|
    {
      if parent == null then [] else parent.Signatures(ancestry[1..])
    }

    /** AlternativePartPrivate::fillFrom: the types become html then plaintext,
        and one new content is added at the end of each of the two lists. */
    method FillFromAlternative(part: MessagePart)
      requires kind == AlternativePart
      modifies this`altTypes, this`altContent
      ensures altTypes == ["html", "plaintext"]
      ensures var h := ContentsOf("html");
        |h| == |old(ContentsOf("html"))| + 1 && h[..|h| - 1] == old(ContentsOf("html")) &&
        fresh(h[|h| - 1]) && IsContent(h[|h| - 1], HtmlContent, part.htmlContent, this)
      ensures var p := ContentsOf("plaintext");
        |p| == |old(ContentsOf("plaintext"))| + 1 && p[..|p| - 1] == old(ContentsOf("plaintext")) &&
        fresh(p[|p| - 1]) && IsContent(p[|p| - 1], PlainTextContent, part.plaintextContent, this)
      ensures altContent.Keys == old(altContent.Keys) + {"html", "plaintext"}
      ensures forall ct :: ct in altContent && ct != "html" && ct != "plaintext" ==>
        altContent[ct] == old(altContent)[ct]
    {
      altTypes := ["html", "plaintext"];
      var content := new Content(HtmlContent, part.htmlContent, this);
      altContent := altContent["html" := ContentsOf("html") + [content]];
      content := new Content(PlainTextContent, part.plaintextContent, this);
      altContent := altContent["plaintext" := ContentsOf("plaintext") + [content]];
    }

    /** SinglePartPrivate::fillFrom for a text part: the type becomes plaintext
        and the earlier contents are replaced by one plain-text content per
        sub-part text, in order. */
    method FillFromText(part: MessagePart)
      requires HasSinglePrivate()
      modifies this`singleType, this`singleContent
      ensures singleType == "plaintext"
      ensures |singleContent| == |part.subParts|
      ensures forall i :: 0 <= i < |part.subParts| ==>
        fresh(singleContent[i]) && IsContent(singleContent[i], PlainTextContent, part.subParts[i].text, this)
    {
      singleType := "plaintext";
      singleContent := [];
      for i := 0 to |part.subParts|
        invariant singleType == "plaintext" && |singleContent| == i
        invariant forall j :: 0 <= j < i ==>
          fresh(singleContent[j]) && IsContent(singleContent[j], PlainTextContent, part.subParts[j].text, this)
      {
        var content := new Content(PlainTextContent, part.subParts[i].text, this);
        singleContent := singleContent + [content];
      }
    }

    /** SinglePartPrivate::fillFrom for an html part: the type becomes html and
        the contents are exactly one html content. */
    method FillFromHtml(part: MessagePart)
      requires HasSinglePrivate()
      modifies this`singleType, this`singleContent
      ensures singleType == "html"
      ensures |singleContent| == 1
      ensures fresh(singleContent[0]) && IsContent(singleContent[0], HtmlContent, part.text, this)
    {
      singleType := "html";
      singleContent := [];
      var content := new Content(HtmlContent, part.text, this);
      singleContent := singleContent + [content];
    }

    /** SinglePartPrivate::fillFrom for an attachment: it changes nothing. */
    method FillFromAttachment(part: MessagePart)
      requires HasSinglePrivate()
      ensures singleType == old(singleType) && singleContent == old(singleContent)
      ensures AvailableContents() == old(AvailableContents())
    {
    }
  }
}
