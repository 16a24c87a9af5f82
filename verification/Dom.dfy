/**
 Searching a vendor's page (internal/connectors/billeriq/billeriq.go; the
 search in internal/connectors/columbiagaspa is the same code). A page is the
 tree that parsing it gave.
 */
module Dom {
  import opened Basics
  import opened Text

  datatype NodeType = ElementNode | TextNode | OtherNode

  datatype Node = Node(kind: NodeType, data: string, attrs: seq<(string, string)>, children: seq<Node>)

  // ----- classes -----

  function Attr(attrs: seq<(string, string)>, key: string): string {
    if attrs == [] then "" else if attrs[0].0 == key then attrs[0].1 else Attr(attrs[1..], key)
  }

  /** The length of the word a string starts with. */
  function WordLength(s: string): (k: nat)
    ensures k <= |s|
    ensures s != "" && !IsSpace(s[0]) ==> k > 0
  {
    if s == "" || IsSpace(s[0]) then 0 else 1 + WordLength(s[1..])
  }

  /** `strings.Fields`. */
  function Fields(s: string): seq<string>
    decreases |s|
  {
    if s == "" then []
    else if IsSpace(s[0]) then Fields(s[1..])
    else [s[..WordLength(s)]] + Fields(s[WordLength(s)..])
  }

  predicate Matches(n: Node, cls: string) {
    n.kind == ElementNode && cls in Fields(Attr(n.attrs, "class"))
  }

  /** The value of the first attribute of that key; empty if there is none. */
  lemma {:induction false} AttrIsFirst(attrs: seq<(string, string)>, key: string)
    ensures (forall i :: 0 <= i < |attrs| ==> attrs[i].0 != key) ==> Attr(attrs, key) == ""
    ensures forall k :: 0 <= k < |attrs| && attrs[k].0 == key && (forall i :: 0 <= i < k ==> attrs[i].0 != key) ==>
              Attr(attrs, key) == attrs[k].1
  {
    if attrs == [] {
    } else {
      AttrIsFirst(attrs[1..], key);
      assert forall i :: 0 <= i < |attrs[1..]| ==> attrs[1..][i] == attrs[i + 1];
      forall k | 0 <= k < |attrs| && attrs[k].0 == key && (forall i :: 0 <= i < k ==> attrs[i].0 != key)
        ensures Attr(attrs, key) == attrs[k].1
      {
        if k > 0 {
          assert attrs[1..][k - 1] == attrs[k];
        }
      }
    }
  }

  /** `s[i..j]` is a word of the text: no blanks in it, and a blank or an end on either side. */
  predicate IsWordAt(s: string, i: nat, j: nat) {
    && i < j <= |s|
    && (forall k :: i <= k < j ==> !IsSpace(s[k]))
    && (i == 0 || IsSpace(s[i - 1])) && (j == |s| || IsSpace(s[j]))
  }

  ghost predicate HasWord(s: string, w: string) {
    exists i: nat, j: nat :: IsWordAt(s, i, j) && s[i..j] == w
  }

  lemma {:induction false} WordIsRead(s: string)
    ensures var n := WordLength(s); (forall k :: 0 <= k < n ==> !IsSpace(s[k])) && (n == |s| || IsSpace(s[n]))
  {
    if s == "" || IsSpace(s[0]) {
    } else {
      WordIsRead(s[1..]);
      assert forall k :: 0 <= k < |s[1..]| ==> s[1..][k] == s[k + 1];
    }
  }

  /** A word past the first `n` characters, which end before it begins. */
  lemma WordInRest(s: string, n: nat, i: nat, j: nat)
    requires n <= i && n <= |s| && j <= |s| && (n == i ==> n == 0 || IsSpace(s[n - 1]))
    ensures IsWordAt(s, i, j) <==> i < j && IsWordAt(s[n..], i - n, j - n)
  {
    assert forall k :: 0 <= k < |s[n..]| ==> s[n..][k] == s[n + k];
    if i < j && IsWordAt(s[n..], i - n, j - n) {
      assert forall k :: i <= k < j ==> s[k] == s[n..][k - n];
    }
  }

  lemma RestHasWord(s: string, n: nat, w: string)
    requires n <= |s| && (n == 0 || n == |s| || IsSpace(s[n - 1]) || IsSpace(s[n]))
    requires HasWord(s[n..], w)
    ensures HasWord(s, w)
  {
    var i: nat, j: nat :| IsWordAt(s[n..], i, j) && s[n..][i..j] == w;
    assert s[n..][i] == s[n + i];
    assert s[n + i..n + j] == w;
    WordInRest(s, n, n + i, n + j);
  }

  lemma HasWordInRest(s: string, n: nat, w: string, i: nat, j: nat)
    requires n <= i && IsWordAt(s, i, j) && s[i..j] == w && (n == i ==> n == 0 || IsSpace(s[n - 1]))
    ensures HasWord(s[n..], w)
  {
    WordInRest(s, n, i, j);
    assert s[n..][i - n..j - n] == w;
  }

  /** `strings.Fields` lists exactly the words of a text. */
  lemma {:induction false} FieldsAreWords(s: string, w: string)
    ensures w in Fields(s) <==> HasWord(s, w)
    decreases |s|, 1
  {
    if s == "" {
    } else if IsSpace(s[0]) {
      FieldsAreWords(s[1..], w);
      BlankFirst(s, w);
    } else {
      FieldsOfWord(s, w);
    }
  }

  lemma BlankFirst(s: string, w: string)
    requires s != "" && IsSpace(s[0])
    ensures HasWord(s, w) <==> HasWord(s[1..], w)
  {
    if HasWord(s[1..], w) {
      RestHasWord(s, 1, w);
    }
    if HasWord(s, w) {
      var i: nat, j: nat :| IsWordAt(s, i, j) && s[i..j] == w;
      HasWordInRest(s, 1, w, i, j);
    }
  }

  /** The text starts with a word: it is that one, or a word of what follows. */
  lemma {:induction false} FieldsOfWord(s: string, w: string)
    requires s != "" && !IsSpace(s[0])
    ensures w in Fields(s) <==> HasWord(s, w)
    decreases |s|, 0
  {
    var n := WordLength(s);
    WordIsRead(s);
    FieldsAreWords(s[n..], w);
    assert IsWordAt(s, 0, n);
    if w in Fields(s) && w != s[..n] {
      RestHasWord(s, n, w);
    }
    if w == s[..n] {
      assert s[0..n] == w;
    } else if HasWord(s, w) {
      var i: nat, j: nat :| IsWordAt(s, i, j) && s[i..j] == w;
      FirstWordEnds(s, n, i, j);
      HasWordInRest(s, n, w, i, j);
    }
  }

  /** A word other than the first begins after it. */
  lemma FirstWordEnds(s: string, n: nat, i: nat, j: nat)
    requires IsWordAt(s, 0, n) && IsWordAt(s, i, j) && s[i..j] != s[..n]
    ensures n < i
  {}

  /** An element matches a class exactly if the class is a word of its first class attribute. */
  lemma MatchesIffWord(n: Node, cls: string)
    ensures Matches(n, cls) <==> n.kind == ElementNode && HasWord(Attr(n.attrs, "class"), cls)
  {
    FieldsAreWords(Attr(n.attrs, "class"), cls);
  }

  // ----- the searches -----

  function FindFirst(n: Node, cls: string): Option<Node>
    decreases n, 1
  {
    if Matches(n, cls) then Some(n) else FindFirstIn(n.children, cls)
  }

  /** The loop over siblings. */
  function FindFirstIn(ns: seq<Node>, cls: string): Option<Node>
    decreases ns, 0
  {
    if ns == [] then None
    else
      var r := FindFirst(ns[0], cls);
      if r.Some? then r else FindFirstIn(ns[1..], cls)
  }

  function FindText(n: Node, cls: string): Option<string>
    decreases n, 1
  {
    if Matches(n, cls) then Some(TrimSpace(TextContent(n))) else FindTextIn(n.children, cls)
  }

  function FindTextIn(ns: seq<Node>, cls: string): Option<string>
    decreases ns, 0
  {
    if ns == [] then None
    else
      var r := FindText(ns[0], cls);
      if r.Some? then r else FindTextIn(ns[1..], cls)
  }

  /** The text a node and its descendants hold, in document order. */
  function TextContent(n: Node): string
    decreases n, 1
  {
    (if n.kind == TextNode then n.data else "") + TextContentOf(n.children)
  }

  function TextContentOf(ns: seq<Node>): string
    decreases ns, 0
  {
    if ns == [] then "" else TextContent(ns[0]) + TextContentOf(ns[1..])
  }

  /** The recursive walk of `textContent`, appending to its builder. */
  method Walk(n: Node, sb0: string) returns (sb: string)
    ensures sb == sb0 + TextContent(n)
    decreases n
  {
    sb := sb0;
    if n.kind == TextNode {
      sb := sb + n.data;
    }
    ghost var own := if n.kind == TextNode then n.data else "";
    ghost var start := sb0 + own;
    assert sb == start;
    var i := 0;
    assert n.children[0..] == n.children;
    while i < |n.children|
      invariant i <= |n.children|
      invariant sb + TextContentOf(n.children[i..]) == start + TextContentOf(n.children)
    {
      ghost var rest := n.children[i..];
      assert rest[0] == n.children[i] && rest[1..] == n.children[i + 1..];
      ghost var before := sb;
      sb := Walk(n.children[i], sb);
      Associate(before, TextContent(rest[0]), TextContentOf(rest[1..]));
      i := i + 1;
    }
    assert sb + TextContentOf(n.children[i..]) == sb;
    Associate(sb0, own, TextContentOf(n.children));
  }

  // ----- reference: document order -----

  /** A node and its descendants in document order. */
  function PreOrder(n: Node): seq<Node>
    decreases n, 1
  {
    [n] + PreOrderOf(n.children)
  }

  function PreOrderOf(ns: seq<Node>): seq<Node>
    decreases ns, 0
  {
    if ns == [] then [] else PreOrder(ns[0]) + PreOrderOf(ns[1..])
  }

  /** `r` is the first node of the list with the class, or the list has none. */
  ghost predicate IsFirst(ns: seq<Node>, cls: string, r: Option<Node>) {
    match r
    case None => forall i :: 0 <= i < |ns| ==> !Matches(ns[i], cls)
    case Some(n) => exists k :: 0 <= k < |ns| && IsFirstAt(ns, cls, n, k)
  }

  ghost predicate IsFirstAt(ns: seq<Node>, cls: string, n: Node, k: nat)
    requires k < |ns|
  {
    ns[k] == n && Matches(n, cls) && forall i :: 0 <= i < k ==> !Matches(ns[i], cls)
  }

  lemma FirstOfConcat(a: seq<Node>, b: seq<Node>, cls: string, ra: Option<Node>, rb: Option<Node>)
    requires IsFirst(a, cls, ra) && IsFirst(b, cls, rb)
    ensures IsFirst(a + b, cls, if ra.Some? then ra else rb)
  {
    if ra.Some? {
      var k :| 0 <= k < |a| && IsFirstAt(a, cls, ra.value, k);
      assert IsFirstAt(a + b, cls, ra.value, k);
    } else if rb.Some? {
      var k :| 0 <= k < |b| && IsFirstAt(b, cls, rb.value, k);
      assert IsFirstAt(a + b, cls, rb.value, |a| + k);
    }
  }

  /** The recursive search finds the first match in document order, on every tree. */
  lemma {:induction false} FindFirstIsFirst(n: Node, cls: string)
    ensures IsFirst(PreOrder(n), cls, FindFirst(n, cls))
    decreases n, 1
  {
    FindFirstInIsFirst(n.children, cls);
    if Matches(n, cls) {
      assert IsFirstAt(PreOrder(n), cls, n, 0);
    } else {
      FirstOfConcat([n], PreOrderOf(n.children), cls, None, FindFirstIn(n.children, cls));
    }
  }

  lemma {:induction false} FindFirstInIsFirst(ns: seq<Node>, cls: string)
    ensures IsFirst(PreOrderOf(ns), cls, FindFirstIn(ns, cls))
    decreases ns, 0
  {
    if ns == [] {
    } else {
      FindFirstIsFirst(ns[0], cls);
      FindFirstInIsFirst(ns[1..], cls);
      FirstOfConcat(PreOrder(ns[0]), PreOrderOf(ns[1..]), cls, FindFirst(ns[0], cls), FindFirstIn(ns[1..], cls));
    }
  }

  function TrimmedText(r: Option<Node>): Option<string> {
    if r.Some? then Some(TrimSpace(TextContent(r.value))) else None
  }

  /** The fused search is the plain one followed by taking the text. */
  lemma {:induction false} FindTextIsTextOfFirst(n: Node, cls: string)
    ensures FindText(n, cls) == TrimmedText(FindFirst(n, cls))
    decreases n, 1
  {
    if !Matches(n, cls) {
      FindTextInIsTextOfFirst(n.children, cls);
    }
  }

  lemma {:induction false} FindTextInIsTextOfFirst(ns: seq<Node>, cls: string)
    ensures FindTextIn(ns, cls) == TrimmedText(FindFirstIn(ns, cls))
    decreases ns, 0
  {
    if ns == [] {
    } else {
      FindTextIsTextOfFirst(ns[0], cls);
      FindTextInIsTextOfFirst(ns[1..], cls);
    }
  }

  /** The data of the text nodes of a list, joined. */
  function TextOf(ns: seq<Node>): string {
    if ns == [] then "" else OwnText(ns[0]) + TextOf(ns[1..])
  }

  function OwnText(n: Node): string {
    if n.kind == TextNode then n.data else ""
  }

  lemma {:induction false} TextOfConcat(a: seq<Node>, b: seq<Node>)
    ensures TextOf(a + b) == TextOf(a) + TextOf(b)
    decreases |a|
  {
    if a == [] {
      assert a + b == b;
    } else {
      TextOfConcat(a[1..], b);
      assert (a + b)[1..] == a[1..] + b && (a + b)[0] == a[0];
      Associate(OwnText(a[0]), TextOf(a[1..]), TextOf(b));
    }
  }

  /** The text content is that of the text nodes in document order. */
  lemma {:induction false} TextContentIsTextOf(n: Node)
    ensures TextContent(n) == TextOf(PreOrder(n))
    decreases n, 1
  {
    TextContentOfIsTextOf(n.children);
    assert PreOrder(n)[1..] == PreOrderOf(n.children);
  }

  lemma {:induction false} TextContentOfIsTextOf(ns: seq<Node>)
    ensures TextContentOf(ns) == TextOf(PreOrderOf(ns))
    decreases ns, 0
  {
    if ns == [] {
    } else {
      TextContentIsTextOf(ns[0]);
      TextContentOfIsTextOf(ns[1..]);
      TextOfConcat(PreOrder(ns[0]), PreOrderOf(ns[1..]));
    }
  }

  // ----- what is read off a page -----

  datatype Extract = NoDueDate | NoAmount | Found(dueDate: string, amount: string, account: string)

  /** The texts `FetchBill` takes from a page, before they are parsed. */
  function ReadPage(doc: Node): Extract {
    var body := FindFirst(doc, "collection-body");
    var root := if body.Some? then body.value else doc;
    match FindText(root, "due-date")
    case None => NoDueDate
    case Some(dueDate) =>
      match FindText(root, "invoice-amount")
      case None => NoAmount
      case Some(amount) =>
        var account := FindText(root, "account-display-first-line");
        Found(dueDate, amount, if account.Some? then TrimSpace(account.value) else "")
  }

  /** The trimmed text of a node: its text nodes in document order. */
  function TextIn(n: Node): string {
    TrimSpace(TextOf(PreOrder(n)))
  }

  /**
   What is read off a page, in document order: within the first collection body,
   or the whole page if it has none, the text of the first due date, of the
   first amount and of the first account line; a missing due date or amount is
   reported, in that order, and a missing account line is empty.
   */
  lemma PageIsReadInOrder(doc: Node)
    returns (body: Option<Node>, due: Option<Node>, amount: Option<Node>, account: Option<Node>)
    ensures IsFirst(PreOrder(doc), "collection-body", body)
    ensures var nodes := PreOrder(if body.Some? then body.value else doc);
            && IsFirst(nodes, "due-date", due) && IsFirst(nodes, "invoice-amount", amount)
            && IsFirst(nodes, "account-display-first-line", account)
    ensures ReadPage(doc) ==
              if due.None? then NoDueDate
              else if amount.None? then NoAmount
              else Found(TextIn(due.value), TextIn(amount.value), if account.Some? then TextIn(account.value) else "")
  {
    body := FindFirst(doc, "collection-body");
    FindFirstIsFirst(doc, "collection-body");
    var root := if body.Some? then body.value else doc;
    due := FirstWithText(root, "due-date");
    amount := FirstWithText(root, "invoice-amount");
    account := FirstWithText(root, "account-display-first-line");
    if account.Some? {
      TrimTwice(TextOf(PreOrder(account.value)));
    }
  }

  lemma FirstWithText(root: Node, cls: string) returns (r: Option<Node>)
    ensures IsFirst(PreOrder(root), cls, r)
    ensures FindText(root, cls) == if r.Some? then Some(TextIn(r.value)) else None
  {
    r := FindFirst(root, cls);
    FindFirstIsFirst(root, cls);
    FindTextIsTextOfFirst(root, cls);
    if r.Some? {
      TextContentIsTextOf(r.value);
    }
  }
}
