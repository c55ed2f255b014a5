/** The already-parsed message that the MIME object-tree parser hands to the
    Part adapter, and what the adapter's createTree makes of it.

    The parser library itself is outside this model: a node records which of
    the adapter's dynamic casts succeed on it, and the accessors the adapter
    calls (text, htmlContent, plaintextContent, subParts). */
module MessageParts {

  /** Which of the casts in createTree succeed on a node. A node of a derived
      parser class can succeed on more than one. */
  datatype Casts = Casts(attachment: bool, text: bool, alternative: bool, html: bool)

  /** A node of the parsed message tree (MimeTreeParser::MessagePart). */
  datatype MessagePart = MessagePart(
    casts: Casts,
    text: string,             // MessagePart::text()
    htmlContent: string,      // AlternativeMessagePart::htmlContent()
    plaintextContent: string, // AlternativeMessagePart::plaintextContent()
    subParts: seq<MessagePart>)

  /** What one classified node becomes in the presentation tree. */
  datatype Leaf =
    | AttachmentLeaf
    | TextLeaf(texts: seq<string>)
    | AlternativeLeaf(html: string, plaintext: string)
    | HtmlLeaf(html: string)

  datatype Classification = Classified(leaf: Leaf) | Unclassified

  /** The texts of a text node's sub-parts, in order. */
  function Texts(ms: seq<MessagePart>): (r: seq<string>)
    ensures |r| == |ms|
    ensures forall i :: 0 <= i < |ms| ==> r[i] == ms[i].text
  {
    seq(|ms|, i requires 0 <= i < |ms| => ms[i].text)
  }

  /** The classification createTree applies to each child: attachment first,
      then text, then alternative, then html; anything else is descended into. */
  function Classify(m: MessagePart): (r: Classification)
    ensures r.Classified? <==> m.casts.attachment || m.casts.text || m.casts.alternative || m.casts.html
    ensures m.casts.attachment ==> r == Classified(AttachmentLeaf)
    ensures !m.casts.attachment && m.casts.text ==> r.leaf.TextLeaf? && r.leaf.texts == Texts(m.subParts)
    ensures r.Classified? && r.leaf.AlternativeLeaf? <==> !m.casts.attachment && !m.casts.text && m.casts.alternative
    ensures r.Classified? && r.leaf.AlternativeLeaf? ==>
              r.leaf.html == m.htmlContent && r.leaf.plaintext == m.plaintextContent
    ensures r.Classified? && r.leaf.HtmlLeaf? <==>
              !m.casts.attachment && !m.casts.text && !m.casts.alternative && m.casts.html
    ensures r.Classified? && r.leaf.HtmlLeaf? ==> r.leaf.html == m.text
  {
    if m.casts.attachment then Classified(AttachmentLeaf)
    else if m.casts.text then Classified(TextLeaf(Texts(m.subParts)))
    else if m.casts.alternative then Classified(AlternativeLeaf(m.htmlContent, m.plaintextContent))
    else if m.casts.html then Classified(HtmlLeaf(m.text))
    else Unclassified
  }

  /** The leaves createTree appends for the first k children of start, in order:
      one per classified child, and the flattening of every unclassified one. */
  function FlattenPrefix(start: MessagePart, k: nat): seq<Leaf>
    requires k <= |start.subParts|
    decreases start, 1, k
  {
    if k == 0 then []
    else FlattenPrefix(start, k - 1) + Contribution(start.subParts[k - 1])
  }

  /** The leaves createTree appends for one child. */
  function Contribution(mp: MessagePart): seq<Leaf>
    decreases mp, 2
  {
    match Classify(mp)
    case Classified(leaf) => [leaf]
    case Unclassified => FlattenPrefix(mp, |mp.subParts|)
  }

  /** The leaves createTree appends for all children of start. */
  function Flatten(start: MessagePart): seq<Leaf>
  {
    FlattenPrefix(start, |start.subParts|)
  }

  /** When every child of start is classified, each child yields exactly one
      leaf, at its own position. */
  lemma {:induction false} FlattenClassifiedChildren(start: MessagePart, k: nat)
    requires k <= |start.subParts|
    requires forall i :: 0 <= i < k ==> Classify(start.subParts[i]).Classified?
    ensures |FlattenPrefix(start, k)| == k
    ensures forall i :: 0 <= i < k ==> FlattenPrefix(start, k)[i] == Classify(start.subParts[i]).leaf
  {
    if k > 0 {
      FlattenClassifiedChildren(start, k - 1);
    }
  }

  /** An unclassified node that wraps a single child is invisible: the result
      is the same as for the child alone. */
  lemma {:induction false} FlattenWrapperTransparent(wrapper: MessagePart)
    requires |wrapper.subParts| == 1 && Classify(wrapper.subParts[0]) == Unclassified
    ensures Flatten(wrapper) == Flatten(wrapper.subParts[0])
  {
    assert FlattenPrefix(wrapper, 0) == [];
    assert Contribution(wrapper.subParts[0]) == Flatten(wrapper.subParts[0]);
  }

  /** A classified child is never descended into: replacing it by any node of
      the same classification leaves the result of the first k children as it
      was. */
  lemma {:induction false} FlattenPrefixSeesClassificationOnly(start: MessagePart, i: nat, c: MessagePart, k: nat)
    requires i < |start.subParts| && k <= |start.subParts|
    requires Classify(start.subParts[i]).Classified? && Classify(c) == Classify(start.subParts[i])
    ensures FlattenPrefix(start.(subParts := start.subParts[i := c]), k) == FlattenPrefix(start, k)
  {
    if k > 0 {
      FlattenPrefixSeesClassificationOnly(start, i, c, k - 1);
      var replaced := start.(subParts := start.subParts[i := c]);
      if k - 1 == i {
        var leaf := Classify(c).leaf;
        calc {
          FlattenPrefix(replaced, k);
          FlattenPrefix(replaced, k - 1) + [leaf];
          FlattenPrefix(start, k - 1) + [leaf];
          FlattenPrefix(start, k);
        }
      } else {
        assert replaced.subParts[k - 1] == start.subParts[k - 1];
      }
    }
  }

  lemma FlattenSeesClassificationOnly(start: MessagePart, i: nat, c: MessagePart)
    requires i < |start.subParts|
    requires Classify(start.subParts[i]).Classified? && Classify(c) == Classify(start.subParts[i])
    ensures Flatten(start.(subParts := start.subParts[i := c])) == Flatten(start)
  {
    FlattenPrefixSeesClassificationOnly(start, i, c, |start.subParts|);
  }
}
