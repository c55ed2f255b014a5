# MIME Part tree

This project models the presentation-side MIME tree of the mail framework
(`framework/domain/mimetreeparser/interface.cpp`). The already-parsed message
tree is turned into a tree of `Part` objects:

- single parts hold plain text, html or an attachment;
- alternative parts hold an html and a plain-text rendering;
- `Content` objects carry the payloads.

The `Parser` has two jobs:

- building the tree (`createTree`, run by the constructor);
- answering queries over it (`collect`, `collectContentParts`).

The model has three modules:

- `MessageParts` (`message_parts.dfy`) is the parser's input. It is an
  immutable tree of message parts, each recording which of the adapter's
  dynamic casts succeed on it. It also holds the pure specification of what
  `createTree` makes of that tree: `Classify` and `Flatten`.
- `Parts` (`parts.dfy`) holds the mutable `Part` and `Content` classes.
  - `Part` has a parent back-link, an ordered list of sub-parts and the
    private data of SinglePart and AlternativePart.
  - `Content` is immutable after construction.
  - The C++ class hierarchy (Part, SinglePart, AlternativePart,
    AttachmentPart) becomes one class with a constant `kind`.
  - The getters become functions with `reads` clauses.
  - `appendSubPart` and the `fillFrom` overloads become methods with
    `modifies` clauses.
- `Parsing` (`parsing.dfy`) holds the `Parser` class and the specification
  of `collect`.
  - `CreateTree` and `Collect` are loops proved against the spec functions
    `Flatten` and `Collected`.
  - The lemmas state what these functions mean. Examples: membership in a
    collected list, order, and that the type cast and filter never prune.

Two bits of ghost state give the proofs something to stand on:

- A ghost footprint `Repr` with a predicate `Valid()` says that the parts
  below a part form a tree: no part lies below itself, and the subtrees of
  two different sub-parts share no part, so no sub-part occurs twice. It
  gives `collect`'s recursion a decreasing measure.
- A ghost `ancestry` argument lists the parent chain. `encryptions()` and
  `signatures()` walk that chain upwards until they reach a root.

## Model

| member | source | states |
|---|---|---|
| MessageParts.Texts | framework/domain/mimetreeparser/interface.cpp:253-254 | The texts a text fill reads: one per sub-part of the message part, in order, each that sub-part's text. |
| MessageParts.Classify | framework/domain/mimetreeparser/interface.cpp:338-362 | The branch createTree takes for a child. A part is made exactly when one of the four casts succeeds. The casts are tried in the order attachment, text, alternative, html: an attachment always wins, a text part carries its sub-parts' texts, and alternative or html are chosen only when every earlier cast failed. An alternative leaf carries the message part's html and plain-text contents, and an html leaf its text. |
| MessageParts.FlattenClassifiedChildren | framework/domain/mimetreeparser/interface.cpp:337-362 | When every child is classified, createTree yields exactly one leaf per child, at the child's own position. |
| MessageParts.FlattenWrapperTransparent | framework/domain/mimetreeparser/interface.cpp:361-363 | An unclassified node with a single unclassified child is invisible: descending through it gives the child's leaves. |
| MessageParts.FlattenPrefixSeesClassificationOnly | framework/domain/mimetreeparser/interface.cpp:343-358 | A classified child is never descended into. Replacing it by any node with the same classification leaves the leaves of every prefix of the children unchanged. |
| MessageParts.FlattenSeesClassificationOnly | framework/domain/mimetreeparser/interface.cpp:343-358 | The same for all the children. |
| Parts.Content.constructor | framework/domain/mimetreeparser/interface.cpp:131-138 | A content keeps the payload, class and owning part it was built with. |
| Parts.Content.Content | framework/domain/mimetreeparser/interface.cpp:160-163 | content() returns the payload. With the constructor's contract that is exactly the string the content was built with, and since it reads no mutable state it never changes afterwards. |
| Parts.Content.Charset | framework/domain/mimetreeparser/interface.cpp:165-168 | The charset is "utf-8" for every content. |
| Parts.Content.Encryptions | framework/domain/mimetreeparser/interface.cpp:144-150 | A content has its owner's encryptions, and none without an owner. Along any finite parent chain these are empty. |
| Parts.Content.Signatures | framework/domain/mimetreeparser/interface.cpp:152-158 | As for encryptions, with signatures. |
| Parts.Part.constructor | framework/domain/mimetreeparser/interface.cpp:48-53 | A new part has no parent, no sub-parts and empty private data. It forms a tree on its own. |
| Parts.Part.AppendSubPart | framework/domain/mimetreeparser/interface.cpp:55-59 | The sub-part's parent becomes this part. The sub-part is added after every earlier sub-part, which stay in place. The footprint grows by the sub-part's footprint. The tree property is kept when the sub-part shares no part with this part's subtree: then this part is not below the sub-part and the new sub-part is disjoint from its siblings. |
| Parts.Part.HasSubParts | framework/domain/mimetreeparser/interface.cpp:77-80 | True exactly when the sub-part list is non-empty. |
| Parts.Part.Type | framework/domain/mimetreeparser/interface.cpp:87-90 | "Part" exactly for a base part, "AlternativePart" exactly for an alternative part (lines 217-220), and "SinglePart" exactly for single and attachment parts (lines 291-294). |
| Parts.Part.AvailableContents | framework/domain/mimetreeparser/interface.cpp:92-95 | None for a base part. The single type for a single part (lines 281-284). The recorded types for an alternative part (lines 222-225). |
| Parts.Part.ContentsOf | framework/domain/mimetreeparser/interface.cpp:201-204 | The contents stored under a type, and none for a type never stored. |
| Parts.Part.Contents | framework/domain/mimetreeparser/interface.cpp:227-230 | For an alternative part, the contents of its first available type. A single part gives its content list (lines 286-289), a base part gives none (lines 97-100). |
| Parts.Part.Encryptions | framework/domain/mimetreeparser/interface.cpp:102-110 | A part has its parent's encryptions, and a root has none. Along any finite parent chain the result is empty. |
| Parts.Part.Signatures | framework/domain/mimetreeparser/interface.cpp:112-120 | As for encryptions, with signatures. |
| Parts.Part.FillFromAlternative | framework/domain/mimetreeparser/interface.cpp:186-194 | The types become html then plaintext. One new content, owned by the part, is appended to each of the two lists, and the earlier entries are kept. The other types are unchanged. |
| Parts.Part.FillFromText | framework/domain/mimetreeparser/interface.cpp:249-256 | The type becomes plaintext. The contents become one new plain-text content per sub-part of the message part, in order, each carrying that sub-part's text and owned by the part. |
| Parts.Part.FillFromHtml | framework/domain/mimetreeparser/interface.cpp:258-263 | The type becomes html. The contents become exactly one new html content with the message part's text, owned by the part. |
| Parts.Part.FillFromAttachment | framework/domain/mimetreeparser/interface.cpp:265-268 | Nothing changes: the type, the contents and the available contents are as before. |
| Parsing.RealisedPart | framework/domain/mimetreeparser/interface.cpp:281-289 | What the presentation layer sees of a part createTree made for a leaf. Its available contents and payloads are fixed by the leaf, and it has no sub-parts. Every content is owned by it, has charset utf-8, and has no encryptions or signatures. For an alternative part, content() is the html list. |
| Parsing.CollectedMembers | framework/domain/mimetreeparser/interface.cpp:382-396 | A part is in collect's result exactly when select held on it and on every part between it and start, and the cast and filter accept it. |
| Parsing.ReachSelected | framework/domain/mimetreeparser/interface.cpp:386-393 | Every part collect reaches lies strictly below start, and select accepts it. |
| Parsing.CollectedIsKeptWalk | framework/domain/mimetreeparser/interface.cpp:386-393 | The cast and filter only drop parts and never prune a subtree. The result is the walk that select allows, with the parts failing the cast or filter removed, in the same order. |
| Parsing.CollectedBelowIsKept | framework/domain/mimetreeparser/interface.cpp:387-392 | The same for what one loop iteration adds. |
| Parsing.PlainTextNeverCollected | framework/domain/mimetreeparser/interface.cpp:377-380 | collectContentParts never returns a single part whose type is plaintext. |
| Parsing.AlternativeChildCollected | framework/domain/mimetreeparser/interface.cpp:377-380 | An alternative part offering html directly below start is always returned by collectContentParts. |
| Parsing.FlatCollected | framework/domain/mimetreeparser/interface.cpp:382-396 | With no cast and an always-true filter, as collectContentParts calls it: below a root whose sub-parts have no sub-parts, collect returns, in order, exactly the sub-parts that select accepts. |
| Parsing.ShowsContentOfLeaf | framework/domain/mimetreeparser/interface.cpp:377-380 | For a part made by createTree, whether collectContentParts' select accepts it depends only on its leaf. As written it accepts alternative and html leaves; corrected, it also accepts text leaves. |
| Parsing.ContentPartsOfParsedTree | framework/domain/mimetreeparser/interface.cpp:377-380 | On a tree built by createTree, collectContentParts returns, in order, the parts made for alternative and html leaves. The corrected select also returns the text parts. |
| Parsing.TextOnlyMessageContentParts | framework/domain/mimetreeparser/interface.cpp:377-380 | A message whose only child is a text part: collectContentParts as written returns nothing, and corrected it returns the text part. |
| Parsing.ValidSubPartsDistinct | framework/domain/mimetreeparser/interface.cpp:343-358 | In a tree, no sub-part occurs twice in a part's sub-part list; this is what each createTree branch making a new part guarantees. |
| Parsing.NewPart | framework/domain/mimetreeparser/interface.cpp:343-357 | Each classified branch creates a fresh part of the class its classification calls for, filled from the message part by the matching fill. The part has no parent and no sub-parts yet. |
| Parsing.Parser.constructor | framework/domain/mimetreeparser/interface.cpp:367-371 | The tree is a fresh root base part. Its sub-parts are fresh parts, one per leaf of the message's flattening, in order, each made for its leaf with the root as parent. The tree property holds, and the sub-parts are pairwise distinct. |
| Parsing.Parser.CreateTree | framework/domain/mimetreeparser/interface.cpp:335-363 | createTree keeps the root's existing sub-parts. It appends fresh parts realising the flattening of start, in order, all directly below the root. It keeps the tree property, and then the root's sub-parts are pairwise distinct. The clause about another part t is a framing fact: t's sub-parts are unchanged. |
| Parsing.Parser.CreateChild | framework/domain/mimetreeparser/interface.cpp:338-361 | One loop iteration of createTree. It appends the parts realising the child's contribution to the flattening and keeps the earlier sub-parts and the tree property. The clause about another part t is a framing fact. |
| Parsing.Parser.Collect | framework/domain/mimetreeparser/interface.cpp:382-396 | collect returns exactly `Collected`, the pre-order walk specification. The lemmas above give that specification its meaning. |
| Parsing.Parser.CollectBelow | framework/domain/mimetreeparser/interface.cpp:386-393 | One loop iteration of collect. When select accepts the part, the result is the part itself if the cast and filter accept it, followed by the recursive result; otherwise it is nothing. |
| Parsing.Parser.CollectContentParts | framework/domain/mimetreeparser/interface.cpp:377-380 | The result is collect with the html-or-text select. It holds exactly the parts reached through accepted parts, and select accepts every part it returns. |
| Parsing.Parser.CollectContentPartsCorrected | framework/domain/mimetreeparser/interface.cpp:377-380 | The result is collect with the html-or-plaintext select. It holds exactly the parts reached through accepted parts, and select accepts every part it returns. |

## Left out

- Parsing a raw MIME message is not modelled: setMessage's KMime parsing, the
  object-tree parser and its html rendering into the embedded-part map. The
  parsed message tree is a parameter of the `Parser` constructor.
- `toLocal8Bit` is not modelled. Strings are copied into contents unchanged,
  because the model has no character encoding.
- Shared-pointer ownership, the `q` back-pointers of the private classes and
  destructors are left out. Objects are Dafny references.
- `MimePart` and `MimePartPrivate::fillFrom` are left out. createTree never
  builds a MimePart; only `MimePart::type` is defined, and it is never
  reached.
- `interface.h` is not part of this model. AttachmentPart is modelled as a
  single part whose fill is the attachment overload of
  SinglePartPrivate::fillFrom. Its type() is taken to be SinglePart's.
- Encryption and Signature are records with only a description, because their
  classes are declared in `interface.h`.
- The getters subParts() and parent() are plain reads of the fields
  `subParts` and `parent`, so they have no members of their own.
- Parsing.Parser.Collect: the select and filter callbacks see a `PartInfo`
  (kind, type name, available contents, whether it has sub-parts) rather
  than the part itself. The template parameter T becomes a predicate on the
  part's kind.
- Parsing.Parser.CreateChild and Parsing.Parser.CollectBelow are the loop
  bodies of createTree and collect, taken out as methods of their own.
- Parsing.NewPart: the first two statements of each classified branch of
  createTree are one method.
- Parts.Part.Encryptions and Parts.Part.Signatures take the parent chain as a
  ghost argument, and so do their Content counterparts. A cyclic parent chain
  would make the source recurse forever; the model is not defined for one.
- createTree casts every node to a MessagePart (line 340) and recurses into
  it without checking the cast (line 362). The model's input tree is made of
  MessageParts only, so a node that is not one, on which the source would
  dereference a null pointer, is not modelled.
- The rest of the framework (accounts, actions, the controller, the settings
  plugin) is not part of this model.

## Findings

| source | as written | input that shows it | evidently intended | confidence | as-written member | corrected member |
|---|---|---|---|---|---|---|
| framework/domain/mimetreeparser/interface.cpp:379 | collectContentParts selects parts whose available contents include "html" or "text". The text fill records the type "plaintext" (line 251), so no text part is ever selected. | A message whose only child is a text message part: the tree has one SinglePart of type plaintext, and collectContentParts returns nothing. | Select parts offering "html" or "plaintext", so plain-text bodies are content parts too. | medium, not executed | Parsing.TextOnlyMessageContentParts | Parsing.Parser.CollectContentPartsCorrected |
