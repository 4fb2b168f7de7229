/**
 * The walk over a MIME tree that finds the bodies and the attachments, with
 * its limits on depth and number of parts.  Headers, transfer encodings and
 * charsets are decoded by library code: a part carries the results.
 */
module MimeWalk {
  import opened Bytes
  import opened Seqs
  import opened Text

  const MAX_DEPTH := 16
  const MAX_PARTS := 500

  /** One part; `text` is its data in UTF-8, `children` what splitting its data at the boundary gives. */
  datatype Part = Part(
    mediaType: string,
    multipart: bool,      // a multipart type with a boundary
    disposition: string,
    filename: string,
    contentId: string,
    text: string,
    data: seq<byte>,
    children: seq<Part>)

  datatype Attachment = Attachment(
    id: string, filename: string, contentType: string, contentId: string, isInline: bool, data: seq<byte>)

  datatype Content = Content(text: string, html: string, attachments: seq<Attachment>)

  const EMPTY := Content("", "", [])

  predicate Opens(p: Part, depth: nat) { p.multipart && depth < MAX_DEPTH }

  /** May become a body: neither marked as an attachment nor named. */
  predicate Eligible(p: Part) { p.disposition != "attachment" && p.filename == "" }

  /** File name extensions come from a table of the system. */
  type Extensions = string -> string

  function MakeAttachment(ext: Extensions, p: Part, number: nat): Attachment {
    Attachment(
      Itoa(number),
      if p.filename == "" then "attachment-" + Itoa(number) + ext(p.mediaType) else p.filename,
      p.mediaType, p.contentId, p.disposition == "inline" || (p.disposition == "" && p.contentId != ""), p.data)
  }

  // ----- the tree in reading order -----

  datatype Node = Node(part: Part, leaf: bool)

  function Preorder(p: Part, depth: nat): seq<Node>
    decreases p, 1
  {
    [Node(p, !Opens(p, depth))] + if Opens(p, depth) then PreorderAll(p.children, depth + 1) else []
  }

  function PreorderAll(ps: seq<Part>, depth: nat): seq<Node>
    decreases ps, 0
  {
    if ps == [] then [] else Preorder(ps[0], depth) + PreorderAll(ps[1..], depth)
  }

  /** What one leaf adds to the message. */
  function AddLeaf(ext: Extensions, c: Content, p: Part): Content {
    if Eligible(p) && p.mediaType == "text/plain" && c.text == "" then c.(text := p.text)
    else if Eligible(p) && p.mediaType == "text/html" && c.html == "" then c.(html := p.text)
    else c.(attachments := c.attachments + [MakeAttachment(ext, p, |c.attachments| + 1)])
  }

  function Fold(ext: Extensions, c: Content, nodes: seq<Node>): Content {
    if nodes == [] then c
    else
      var (before, last) := (Fold(ext, c, nodes[..|nodes| - 1]), nodes[|nodes| - 1]);
      if last.leaf then AddLeaf(ext, before, last.part) else before
  }

  /** The nodes that still come within the limit when `parts` have been counted. */
  function Allowed(nodes: seq<Node>, parts: nat): (r: seq<Node>)
    ensures |r| <= MAX_PARTS
  {
    var room := if parts < MAX_PARTS then MAX_PARTS - parts else 0;
    if |nodes| <= room then nodes else nodes[..room]
  }

  function Walked(ext: Extensions, c: Content, nodes: seq<Node>, parts: nat): Content {
    Fold(ext, c, Allowed(nodes, parts))
  }

  function Capped(parts: nat): nat { if parts < MAX_PARTS then parts else MAX_PARTS }

  lemma {:induction false} FoldAppend(ext: Extensions, c: Content, a: seq<Node>, b: seq<Node>)
    ensures Fold(ext, c, a + b) == Fold(ext, Fold(ext, c, a), b)
  {
    if b == [] {
      assert a + b == a;
    } else {
      FoldAppend(ext, c, a, b[..|b| - 1]);
      assert (a + b)[..|a + b| - 1] == a + b[..|b| - 1];
    }
  }

  lemma AllowedAppend(a: seq<Node>, b: seq<Node>, parts: nat)
    ensures Allowed(a + b, parts) == Allowed(a, parts) + Allowed(b, parts + |a|)
  {
  }

  /** Walking `nodes` led from one content and count to another. */
  ghost predicate Led(ext: Extensions, c: Content, parts: nat, nodes: seq<Node>, c': Content, parts': nat) {
    c' == Walked(ext, c, nodes, parts) && Capped(parts') == Capped(parts + |nodes|)
  }

  lemma LedFurther(ext: Extensions, c: Content, parts: nat, a: seq<Node>, c1: Content, parts1: nat, b: seq<Node>,
                   c2: Content, parts2: nat)
    requires Led(ext, c, parts, a, c1, parts1) && Led(ext, c1, parts1, b, c2, parts2)
    ensures Led(ext, c, parts, a + b, c2, parts2)
  {
    AllowedAppend(a, b, parts);
    FoldAppend(ext, c, Allowed(a, parts), Allowed(b, parts + |a|));
  }

  lemma {:induction false} PreorderMore(ps: seq<Part>, p: Part, depth: nat)
    ensures PreorderAll(ps + [p], depth) == PreorderAll(ps, depth) + Preorder(p, depth)
  {
    if ps == [] {
      assert [p][1..] == [] && ps + [p] == [p];
    } else {
      PreorderMore(ps[1..], p, depth);
      DropOfAppend(ps, 1, [p]);
      Associative(Preorder(ps[0], depth), PreorderAll(ps[1..], depth), Preorder(p, depth));
    }
  }

  /** One child more. */
  lemma NextChild(ext: Extensions, c: Content, parts: nat, ps: seq<Part>, i: nat, depth: nat, c1: Content, parts1: nat,
                  c2: Content, parts2: nat)
    requires i < |ps| && Led(ext, c, parts, PreorderAll(ps[..i], depth), c1, parts1)
    requires Led(ext, c1, parts1, Preorder(ps[i], depth), c2, parts2)
    ensures Led(ext, c, parts, PreorderAll(ps[..i + 1], depth), c2, parts2)
  {
    PreorderMore(ps[..i], ps[i], depth);
    assert ps[..i + 1] == ps[..i] + [ps[i]];
    LedFurther(ext, c, parts, PreorderAll(ps[..i], depth), c1, parts1, Preorder(ps[i], depth), c2, parts2);
  }

  // ----- the walk -----

  class Parser {
    const ext: Extensions
    var parts: nat
    var text: string
    var html: string
    var attachments: seq<Attachment>

    ghost function Found(): Content
      reads this
    {
      Content(text, html, attachments)
    }

    constructor (ext: Extensions)
      ensures this.ext == ext && parts == 0 && Found() == EMPTY
    {
      this.ext := ext;
      parts, text, html, attachments := 0, "", "", [];
    }

    /** `setBody` */
    method SetBody(p: Part) returns (done: bool)
      modifies this`text, this`html
      ensures done <==> || (p.mediaType == "text/plain" && old(text) == "")
                        || (p.mediaType == "text/html" && old(html) == "")
      ensures Found() == if p.mediaType == "text/plain" && old(text) == "" then old(Found()).(text := p.text)
                         else if p.mediaType == "text/html" && old(html) == "" then old(Found()).(html := p.text)
                         else old(Found())
    {
      done := true;
      if p.mediaType == "text/plain" && text == "" {
        text := p.text;
      } else if p.mediaType == "text/html" && html == "" {
        html := p.text;
      } else {
        done := false;
      }
    }

    method TakeLeaf(p: Part)
      modifies this`text, this`html, this`attachments
      ensures Found() == AddLeaf(ext, old(Found()), p)
    {
      if p.disposition != "attachment" && p.filename == "" {
        var done := SetBody(p);
        if done {
          return;
        }
      }
      attachments := attachments + [MakeAttachment(ext, p, |attachments| + 1)];
    }

    /**
     * `walk`: counts parts as it goes and stops at the limit, yet ends with
     * the fold over the nodes in reading order that the limit allows.
     */
    method Walk(p: Part, depth: nat)
      modifies this
      ensures Led(ext, old(Found()), old(parts), Preorder(p, depth), Found(), parts)
      decreases p, 1
    {
      parts := parts + 1;
      if parts > MAX_PARTS {
        return;
      }
      if Opens(p, depth) {
        ghost var (c, n) := (Found(), parts);
        WalkChildren(p, depth);
        HeadLeads(ext, c, p, depth, n - 1, Found(), parts);
      } else {
        LeafLeads(ext, Found(), p, depth, parts - 1);
        TakeLeaf(p);
      }
    }

    method WalkChildren(p: Part, depth: nat)
      modifies this
      ensures Led(ext, old(Found()), old(parts), PreorderAll(p.children, depth + 1), Found(), parts)
      decreases p, 0
    {
      var i := 0;
      while i < |p.children|
        invariant 0 <= i <= |p.children|
        invariant Led(ext, old(Found()), old(parts), PreorderAll(p.children[..i], depth + 1), Found(), parts)
      {
        ghost var (c, n) := (Found(), parts);
        Walk(p.children[i], depth + 1);
        NextChild(ext, old(Found()), old(parts), p.children, i, depth + 1, c, n, Found(), parts);
        i := i + 1;
      }
      assert p.children[..i] == p.children;
    }
  }

  lemma FoldOne(ext: Extensions, c: Content, n: Node)
    ensures Fold(ext, c, [n]) == if n.leaf then AddLeaf(ext, c, n.part) else c
  {
    assert [n][..0] == [];
    assert Fold(ext, c, [n][..0]) == c;
  }

  lemma HeadLeads(ext: Extensions, c: Content, p: Part, depth: nat, parts: nat, c': Content, parts': nat)
    requires parts < MAX_PARTS && Opens(p, depth)
    requires Led(ext, c, parts + 1, PreorderAll(p.children, depth + 1), c', parts')
    ensures Led(ext, c, parts, Preorder(p, depth), c', parts')
  {
    var head := Node(p, false);
    FoldOne(ext, c, head);
    LedFurther(ext, c, parts, [head], c, parts + 1, PreorderAll(p.children, depth + 1), c', parts');
  }

  lemma LeafLeads(ext: Extensions, c: Content, p: Part, depth: nat, parts: nat)
    requires parts < MAX_PARTS && !Opens(p, depth)
    ensures Led(ext, c, parts, Preorder(p, depth), AddLeaf(ext, c, p), parts + 1)
  {
    assert Preorder(p, depth) == [Node(p, true)];
    FoldOne(ext, c, Node(p, true));
  }

  /** The walk of a whole message. */
  method ParseTree(ext: Extensions, root: Part) returns (c: Content)
    ensures c == Fold(ext, EMPTY, Allowed(Preorder(root, 0), 0))
    ensures var leaves := Leaves(Allowed(Preorder(root, 0), 0)); Means(ext, c, leaves, |leaves|)
    ensures var leaves := Leaves(Allowed(Preorder(root, 0), 0)); Described(ext, c.attachments, Rest(leaves, |leaves|))
    ensures |c.attachments| <= 500 && Numbered(c.attachments)
  {
    var p := new Parser(ext);
    p.Walk(root, 0);
    c := Content(p.text, p.html, p.attachments);
    WalkFinds(ext, root);
  }

  // ----- what it finds, said without state -----

  function Leaves(nodes: seq<Node>): (r: seq<Part>)
    ensures |r| <= |nodes|
  {
    if nodes == [] then []
    else
      var (before, last) := (Leaves(nodes[..|nodes| - 1]), nodes[|nodes| - 1]);
      if last.leaf then before + [last.part] else before
  }

  predicate Candidate(p: Part, kind: string) { Eligible(p) && p.mediaType == kind }

  /** No candidate of this kind with any text among the first `i`. */
  predicate Wanting(leaves: seq<Part>, i: nat, kind: string)
    requires i <= |leaves|
  {
    forall j | 0 <= j < i :: Candidate(leaves[j], kind) ==> leaves[j].text == ""
  }

  /** Leaf `i` goes into a body: a candidate that comes no later than the first one with text. */
  predicate IsBody(leaves: seq<Part>, i: nat)
    requires i < |leaves|
  {
    || (Candidate(leaves[i], "text/plain") && Wanting(leaves, i, "text/plain"))
    || (Candidate(leaves[i], "text/html") && Wanting(leaves, i, "text/html"))
  }

  /** The other leaves, in order. */
  function Rest(leaves: seq<Part>, n: nat): (r: seq<Part>)
    requires n <= |leaves|
    ensures |r| <= n
  {
    if n == 0 then []
    else
      var before := Rest(leaves, n - 1);
      if IsBody(leaves, n - 1) then before else before + [leaves[n - 1]]
  }

  /** `body` is the text of the first candidate that has any, or empty when none has. */
  ghost predicate FirstBody(leaves: seq<Part>, n: nat, kind: string, body: string)
    requires n <= |leaves|
  {
    if body == "" then Wanting(leaves, n, kind)
    else exists i | 0 <= i < n :: Candidate(leaves[i], kind) && leaves[i].text == body && Wanting(leaves, i, kind)
  }

  function Number(ext: Extensions, leaves: seq<Part>): seq<Attachment> {
    seq(|leaves|, i requires 0 <= i < |leaves| => MakeAttachment(ext, leaves[i], i + 1))
  }

  ghost predicate Means(ext: Extensions, c: Content, leaves: seq<Part>, n: nat)
    requires n <= |leaves|
  {
    && FirstBody(leaves, n, "text/plain", c.text)
    && FirstBody(leaves, n, "text/html", c.html)
    && c.attachments == Number(ext, Rest(leaves, n))
  }

  lemma {:induction false} RestOfPrefix(leaves: seq<Part>, more: seq<Part>, n: nat)
    requires n <= |leaves|
    ensures Rest(leaves + more, n) == Rest(leaves, n)
  {
    if n > 0 {
      RestOfPrefix(leaves, more, n - 1);
      WantingOfPrefix(leaves, more, n - 1, "text/plain");
      WantingOfPrefix(leaves, more, n - 1, "text/html");
    }
  }

  lemma WantingOfPrefix(leaves: seq<Part>, more: seq<Part>, i: nat, kind: string)
    requires i <= |leaves|
    ensures Wanting(leaves + more, i, kind) == Wanting(leaves, i, kind)
  {
    assert forall j | 0 <= j < i :: (leaves + more)[j] == leaves[j];
  }

  lemma FirstBodyOfPrefix(leaves: seq<Part>, more: seq<Part>, kind: string, body: string)
    requires FirstBody(leaves, |leaves|, kind, body)
    ensures FirstBody(leaves + more, |leaves|, kind, body)
  {
    if body != "" {
      var i :| 0 <= i < |leaves| && Candidate(leaves[i], kind) && leaves[i].text == body && Wanting(leaves, i, kind);
      assert (leaves + more)[i] == leaves[i] && Wanting(leaves + more, i, kind);
    }
  }

  /** A body field is empty exactly while its kind is still wanting. */
  lemma BodyIsWanting(leaves: seq<Part>, n: nat, kind: string, body: string)
    requires n <= |leaves| && FirstBody(leaves, n, kind, body)
    ensures body == "" <==> Wanting(leaves, n, kind)
  {
  }

  lemma NextBody(leaves: seq<Part>, n: nat, kind: string, body: string)
    requires n < |leaves| && FirstBody(leaves, n, kind, body)
    ensures FirstBody(leaves, n + 1, kind, if body == "" && Candidate(leaves[n], kind) then leaves[n].text else body)
  {
    if body != "" {
      var i :| 0 <= i < n && Candidate(leaves[i], kind) && leaves[i].text == body && Wanting(leaves, i, kind);
    }
  }

  lemma LeafMeans(ext: Extensions, c: Content, leaves: seq<Part>, n: nat)
    requires n < |leaves| && Means(ext, c, leaves, n)
    ensures Means(ext, AddLeaf(ext, c, leaves[n]), leaves, n + 1)
  {
    BodyIsWanting(leaves, n, "text/plain", c.text);
    BodyIsWanting(leaves, n, "text/html", c.html);
    NextBody(leaves, n, "text/plain", c.text);
    NextBody(leaves, n, "text/html", c.html);
    NumberMore(ext, Rest(leaves, n), leaves[n]);
  }

  lemma NumberMore(ext: Extensions, leaves: seq<Part>, p: Part)
    ensures Number(ext, leaves + [p]) == Number(ext, leaves) + [MakeAttachment(ext, p, |leaves| + 1)]
  {
  }

  lemma {:induction false} FoldMeans(ext: Extensions, nodes: seq<Node>)
    ensures Means(ext, Fold(ext, EMPTY, nodes), Leaves(nodes), |Leaves(nodes)|)
  {
    if nodes != [] {
      var init, last := nodes[..|nodes| - 1], nodes[|nodes| - 1];
      FoldMeans(ext, init);
      if last.leaf {
        var leaves := Leaves(init);
        MeansOfPrefix(ext, Fold(ext, EMPTY, init), leaves, [last.part]);
        LeafMeans(ext, Fold(ext, EMPTY, init), leaves + [last.part], |leaves|);
      }
    }
  }

  lemma MeansOfPrefix(ext: Extensions, c: Content, leaves: seq<Part>, more: seq<Part>)
    requires Means(ext, c, leaves, |leaves|)
    ensures Means(ext, c, leaves + more, |leaves|)
  {
    FirstBodyOfPrefix(leaves, more, "text/plain", c.text);
    FirstBodyOfPrefix(leaves, more, "text/html", c.html);
    RestOfPrefix(leaves, more, |leaves|);
  }

  /**
   * What a message's bodies and attachments are.  Of the leaves among the
   * first 500 nodes, the text and the HTML body are those of the first
   * candidate with any text; every other leaf that is not an empty candidate
   * before it is an attachment, in order, and they are numbered from "1".
   */
  lemma WalkFinds(ext: Extensions, root: Part)
    ensures var (c, leaves) := (Fold(ext, EMPTY, Allowed(Preorder(root, 0), 0)), Leaves(Allowed(Preorder(root, 0), 0)));
            && Means(ext, c, leaves, |leaves|)
            && |c.attachments| <= 500
            && Described(ext, c.attachments, Rest(leaves, |leaves|))
            && Numbered(c.attachments)
  {
    FoldMeans(ext, Allowed(Preorder(root, 0), 0));
    var leaves := Leaves(Allowed(Preorder(root, 0), 0));
    NumberDescribes(ext, Rest(leaves, |leaves|));
  }

  /** The attachment shows the part: its data untouched, its own name or else one made of number and type. */
  ghost predicate Describes(ext: Extensions, a: Attachment, p: Part, number: nat) {
    && a.id == Itoa(number) && a.data == p.data && a.contentType == p.mediaType && a.contentId == p.contentId
    && (p.filename != "" ==> a.filename == p.filename)
    && (p.filename == "" ==> a.filename == "attachment-" + Itoa(number) + ext(p.mediaType))
    && (p.disposition == "inline" ==> a.isInline)
    && (p.disposition == "" ==> (a.isInline <==> p.contentId != ""))
    && (p.disposition != "inline" && p.disposition != "" ==> !a.isInline)
  }

  ghost predicate Described(ext: Extensions, attachments: seq<Attachment>, parts: seq<Part>) {
    |attachments| == |parts| && forall i | 0 <= i < |parts| :: Describes(ext, attachments[i], parts[i], i + 1)
  }

  lemma NumberDescribes(ext: Extensions, parts: seq<Part>)
    ensures Described(ext, Number(ext, parts), parts)
  {
    forall i | 0 <= i < |parts| ensures Describes(ext, Number(ext, parts)[i], parts[i], i + 1) {
      assert Number(ext, parts)[i] == MakeAttachment(ext, parts[i], i + 1);
    }
  }

  /** The leaf cannot become a body: it is marked as an attachment, has a name, or is not text. */
  predicate IsFile(p: Part) {
    p.disposition == "attachment" || p.filename != "" || p.mediaType !in {"text/plain", "text/html"}
  }

  lemma {:induction false} FilesAreRest(leaves: seq<Part>, n: nat, i: nat)
    requires i < n <= |leaves| && IsFile(leaves[i])
    ensures leaves[i] in Rest(leaves, n)
  {
    if i < n - 1 {
      FilesAreRest(leaves, n - 1, i);
    }
  }

  /** No file is lost: each of them is among the attachments. */
  lemma FilesAreAttached(ext: Extensions, c: Content, leaves: seq<Part>, i: nat)
    requires i < |leaves| && IsFile(leaves[i]) && Described(ext, c.attachments, Rest(leaves, |leaves|))
    ensures exists k | 0 <= k < |c.attachments| :: Describes(ext, c.attachments[k], leaves[i], k + 1)
  {
    FilesAreRest(leaves, |leaves|, i);
    var k :| 0 <= k < |Rest(leaves, |leaves|)| && Rest(leaves, |leaves|)[k] == leaves[i];
    assert Describes(ext, c.attachments[k], leaves[i], k + 1);
  }

  /** And every text that is no file becomes the body if none of its kind came before it. */
  lemma FirstTextIsBody(c: Content, leaves: seq<Part>, i: nat)
    requires i < |leaves| && !IsFile(leaves[i]) && leaves[i].text != "" && Wanting(leaves, i, leaves[i].mediaType)
    requires FirstBody(leaves, |leaves|, "text/plain", c.text) && FirstBody(leaves, |leaves|, "text/html", c.html)
    ensures leaves[i].text == if leaves[i].mediaType == "text/plain" then c.text else c.html
  {
    var (kind, body) := (leaves[i].mediaType, if leaves[i].mediaType == "text/plain" then c.text else c.html);
    assert Candidate(leaves[i], kind) && FirstBody(leaves, |leaves|, kind, body);
    if body != "" {
      var j :| 0 <= j < |leaves| && Candidate(leaves[j], kind) && leaves[j].text == body && Wanting(leaves, j, kind);
    }
  }

  /** Multiparts are opened down to the sixteenth level below the root, and 500 nodes are looked at. */
  lemma LimitsAre(p: Part, depth: nat)
    ensures !p.multipart || depth > 15 ==> Preorder(p, depth) == [Node(p, true)]
    ensures p.multipart && depth <= 15 ==> Preorder(p, depth) == [Node(p, false)] + PreorderAll(p.children, depth + 1)
    ensures var nodes := Preorder(p, depth); Allowed(nodes, 0) == if |nodes| > 500 then nodes[..500] else nodes
  {
  }

  // ----- looking an attachment up -----

  ghost predicate Numbered(attachments: seq<Attachment>) {
    forall i | 0 <= i < |attachments| :: attachments[i].id == Itoa(i + 1)
  }

  /** `Message.Attachment`: the first with this id; with numbers as ids, the only one. */
  method FindAttachment(attachments: seq<Attachment>, id: string) returns (found: Option<Attachment>)
    ensures found == None <==> forall a <- attachments :: a.id != id
    ensures Numbered(attachments) ==>
              forall i | 0 <= i < |attachments| && attachments[i].id == id :: found == Some(attachments[i])
  {
    for n := 0 to |attachments|
      invariant forall i | 0 <= i < n :: attachments[i].id != id
    {
      if attachments[n].id == id {
        if Numbered(attachments) {
          forall i | 0 <= i < |attachments| && attachments[i].id == id ensures i == n {
            ItoaInjective(i + 1, n + 1);
          }
        }
        return Some(attachments[n]);
      }
    }
    return None;
  }
}
