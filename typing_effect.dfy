/** The `TypingEffect` class of js/supernova.js: a title is emptied, a
    blinking cursor is put in it, and then one character of the text is
    inserted before the cursor per timer tick; when the text is exhausted a
    last 500 ms timer removes the cursor and calls `onComplete`.

    The element's children are a sequence of nodes. The three timers
    (`delay`, `speed`, 500 ms) are not real time: the one pending timer is
    recorded by `phase` and its duration by `timeout`, and firing it is a
    call of `Type` or `Complete`. */
module SupernovaTyping {
  import opened Wrappers
  import opened JsText

  /** A child of the title element: a text node, or the cursor `<span>`
      (which has no text). */
  datatype Node = TextNode(data: string) | CursorNode

  /** Which timer is pending. */
  datatype Phase =
    | Idle       // constructed, `start()` not yet called
    | Typing     // a `type()` call is scheduled
    | Finishing  // the completion timer is scheduled
    | Done       // the cursor is gone and `onComplete` has run

  /** `element.textContent`: the text of the children in order. */
  function TextOf(nodes: seq<Node>): string
  {
    if nodes == [] then []
    else (match nodes[0] case TextNode(d) => d case CursorNode => []) + TextOf(nodes[1..])
  }

  lemma {:induction false} TextOfAppend(a: seq<Node>, b: seq<Node>)
    ensures TextOf(a + b) == TextOf(a) + TextOf(b)
  {
    if a == [] {
      assert a + b == b;
    } else {
      assert (a + b)[1..] == a[1..] + b;
      TextOfAppend(a[1..], b);
    }
  }

  /** One text node per character: what `insertBefore` of single-character
      text nodes builds up. */
  function CharNodes(s: string): (r: seq<Node>)
    ensures |r| == |s| && CursorNode !in r
    ensures forall i :: 0 <= i < |s| ==> r[i] == TextNode([s[i]])
  {
    if s == [] then [] else CharNodes(s[..|s| - 1]) + [TextNode([s[|s| - 1]])]
  }

  /** The character nodes carry exactly the typed text. */
  lemma {:induction false} TextOfCharNodes(s: string)
    ensures TextOf(CharNodes(s)) == s
  {
    if s != [] {
      var p := s[..|s| - 1];
      TextOfAppend(CharNodes(p), [TextNode([s[|s| - 1]])]);
      TextOfCharNodes(p);
      assert s == p + [s[|s| - 1]];
    }
  }

  /** What assigning `textContent` leaves: one text node, or nothing for
      the empty string. */
  function Assigned(s: string): (r: seq<Node>)
    ensures TextOf(r) == s && CursorNode !in r && |r| <= 1
  {
    if s == [] then [] else [TextNode(s)]
  }

  /** Position of the first occurrence of `ref`. */
  function FirstIndex(nodes: seq<Node>, ref: Node): (k: nat)
    requires ref in nodes
    ensures k < |nodes| && nodes[k] == ref
    ensures forall i :: 0 <= i < k ==> nodes[i] != ref
  {
    if nodes[0] == ref then 0 else 1 + FirstIndex(nodes[1..], ref)
  }

  /** `parent.insertBefore(node, ref)`: `node` goes right before the first
      occurrence of `ref`. */
  function InsertBefore(nodes: seq<Node>, node: Node, ref: Node): (r: seq<Node>)
    requires ref in nodes
    ensures |r| == |nodes| + 1 && r[FirstIndex(nodes, ref)] == node
  {
    var k := FirstIndex(nodes, ref);
    nodes[..k] + [node] + nodes[k..]
  }

  /** `node.remove()`: every occurrence of `node` leaves the list. */
  function Without(nodes: seq<Node>, node: Node): (r: seq<Node>)
    ensures node !in r
    ensures forall n :: n in r ==> n in nodes
  {
    if nodes == [] then []
    else (if nodes[0] == node then [] else [nodes[0]]) + Without(nodes[1..], node)
  }

  lemma {:induction false} WithoutAbsent(nodes: seq<Node>, node: Node)
    requires node !in nodes
    ensures Without(nodes, node) == nodes
  {
    if nodes != [] {
      WithoutAbsent(nodes[1..], node);
    }
  }

  /** The children after `n` characters have been typed: one node per
      character and the cursor last, or a single text node without cursor. */
  function Typed(text: string, n: nat, cursor: bool): seq<Node>
    requires n <= |text|
  {
    if cursor then CharNodes(text[..n]) + [CursorNode] else Assigned(text[..n])
  }

  /** Whatever the cursor setting, the element shows the typed prefix. */
  lemma TypedShowsPrefix(text: string, n: nat, cursor: bool)
    requires n <= |text|
    ensures TextOf(Typed(text, n, cursor)) == text[..n]
    ensures cursor <==> CursorNode in Typed(text, n, cursor)
    ensures cursor ==> Typed(text, n, cursor)[|Typed(text, n, cursor)| - 1] == CursorNode
  {
    if cursor {
      TextOfAppend(CharNodes(text[..n]), [CursorNode]);
      TextOfCharNodes(text[..n]);
    }
  }

  /** Typing one more character before the cursor extends the nodes by one. */
  lemma InsertBeforeCursor(text: string, n: nat)
    requires n < |text|
    ensures InsertBefore(Typed(text, n, true), TextNode([text[n]]), CursorNode) == Typed(text, n + 1, true)
  {
    var old_ := Typed(text, n, true);
    assert forall i :: 0 <= i < n ==> old_[i] == TextNode([text[i]]);
    assert FirstIndex(old_, CursorNode) == n;
    assert text[..n + 1][..n] == text[..n];
    assert CharNodes(text[..n + 1]) == CharNodes(text[..n]) + [TextNode([text[n]])];
  }

  /** Appending the next character to `textContent` without a cursor. */
  lemma AppendWithoutCursor(text: string, n: nat)
    requires n < |text|
    ensures Assigned(TextOf(Typed(text, n, false)) + [text[n]]) == Typed(text, n + 1, false)
  {
    assert text[..n + 1] == text[..n] + [text[n]];
  }

  /** Removing the cursor from the fully typed text leaves exactly the
      text; without a cursor there is nothing to remove. */
  lemma CursorRemoved(text: string, cursor: bool)
    ensures TextOf(Without(Typed(text, |text|, cursor), CursorNode)) == text
    ensures !cursor ==> Without(Typed(text, |text|, cursor), CursorNode) == Typed(text, |text|, cursor)
  {
    assert text[..|text|] == text;
    var t := Typed(text, |text|, cursor);
    if cursor {
      var cs := CharNodes(text);
      assert t == cs + [CursorNode];
      WithoutAppend(cs, [CursorNode], CursorNode);
      WithoutAbsent(cs, CursorNode);
      assert Without([CursorNode], CursorNode) == [];
      assert Without(t, CursorNode) == cs;
      TextOfCharNodes(text);
    } else {
      assert t == Assigned(text);
      WithoutAbsent(t, CursorNode);
    }
  }

  /** One `type()` step, with or without the cursor, types the next
      character and the element then shows one more character. */
  lemma TypeStep(text: string, n: nat, cursor: bool)
    requires n < |text|
    ensures (if cursor then InsertBefore(Typed(text, n, true), TextNode([text[n]]), CursorNode)
             else Assigned(TextOf(Typed(text, n, false)) + [text[n]])) == Typed(text, n + 1, cursor)
    ensures cursor ==> CursorNode in Typed(text, n, true)
    ensures TextOf(Typed(text, n + 1, cursor)) == text[..n + 1]
  {
    TypedShowsPrefix(text, n, cursor);
    if cursor {
      InsertBeforeCursor(text, n);
    } else {
      AppendWithoutCursor(text, n);
    }
    TypedShowsPrefix(text, n + 1, cursor);
  }

  class TypingEffect {
    const text: string
    /** Milliseconds between characters (`options.speed || 100`). */
    const speed: int
    /** Milliseconds before the first character (`options.delay || 500`). */
    const delay: int
    /** `options.showCursor !== false`. */
    const showCursor: bool

    var currentIndex: nat
    /** `this.cursor !== null`. */
    var cursor: bool
    var children: seq<Node>
    var phase: Phase
    /** Duration of the pending timer. */
    var timeout: int
    /** How many times `onComplete` has run. */
    var completions: nat

    ghost predicate Valid()
      reads this
    {
      && currentIndex <= |text|
      && (phase == Idle ==> currentIndex == 0 && !cursor && completions == 0)
      && (phase != Idle ==> cursor == showCursor)
      && ((phase == Typing || phase == Finishing) ==> children == Typed(text, currentIndex, cursor))
      && (phase == Finishing ==> currentIndex == |text| && timeout == 500)
      && (phase == Done ==> currentIndex == |text| && children == Without(Typed(text, |text|, cursor), CursorNode))
      && completions == (if phase == Done then 1 else 0)
    }

    /** `new TypingEffect(element, text, options)` on an element that
        currently holds `initial`. */
    constructor (text: string, initial: seq<Node>, speed: Option<int>, delay: Option<int>,
                 showCursor: Option<bool>)
      ensures Valid()
      ensures this.text == text && children == initial && phase == Idle
      ensures this.speed == OrInt(speed, 100) && this.delay == OrInt(delay, 500)
      ensures this.showCursor == (showCursor != Some(false))
      ensures currentIndex == 0 && !cursor && completions == 0
    {
      this.text := text;
      this.speed := OrInt(speed, 100);
      this.delay := OrInt(delay, 500);
      this.showCursor := showCursor != Some(false);
      currentIndex := 0;
      cursor := false;
      children := initial;
      phase := Idle;
      timeout := 0;
      completions := 0;
    }

    /** `start()`: empty the element, add the cursor when enabled, and
        schedule the first `type()` after `delay`. */
    method Start()
      requires Valid() && phase == Idle
      modifies this
      ensures Valid()
      ensures phase == Typing && timeout == delay
      ensures cursor == showCursor
      ensures children == (if showCursor then [CursorNode] else [])
      ensures currentIndex == 0 && completions == 0
    {
      children := Assigned("");
      if showCursor {
        cursor := true;
        children := children + [CursorNode];
      }
      phase := Typing;
      timeout := delay;
      assert text[..0] == [];
    }

    /** `type()`: the pending typing timer fires. While characters remain,
        the next one goes in before the cursor (or is appended to
        `textContent` without a cursor) and the next call is scheduled after
        `speed`; otherwise the completion timer is scheduled. */
    method Type()
      requires Valid() && phase == Typing
      modifies this
      ensures Valid()
      ensures old(currentIndex) < |text| ==>
        currentIndex == old(currentIndex) + 1 && phase == Typing && timeout == speed
      ensures old(currentIndex) == |text| ==>
        currentIndex == old(currentIndex) && children == old(children) && phase == Finishing && timeout == 500
      ensures children == Typed(text, currentIndex, cursor) && TextOf(children) == text[..currentIndex]
      ensures cursor == old(cursor) && completions == 0
    {
      var n := currentIndex;
      if n < |text| {
        TypeStep(text, n, cursor);
        var next: seq<Node>;
        if cursor {
          next := InsertBefore(children, TextNode([text[n]]), CursorNode);
          assert next == Typed(text, n + 1, true);
        } else {
          next := Assigned(TextOf(children) + [text[n]]);
          assert next == Typed(text, n + 1, false);
        }
        children, currentIndex, timeout := next, n + 1, speed;
      } else {
        TypedShowsPrefix(text, n, cursor);
        phase, timeout := Finishing, 500;
      }
    }

    /** The completion timer fires: the cursor is removed and `onComplete`
        runs, once. */
    method Complete()
      requires Valid() && phase == Finishing
      modifies this
      ensures Valid()
      ensures phase == Done && completions == 1
      ensures children == Without(old(children), CursorNode)
      ensures CursorNode !in children && TextOf(children) == text
      ensures currentIndex == |text| && cursor == old(cursor)
    {
      CursorRemoved(text, cursor);
      if cursor {
        children := Without(children, CursorNode);
      }
      completions := completions + 1;
      phase := Done;
    }
  }

  lemma {:induction false} WithoutAppend(a: seq<Node>, b: seq<Node>, node: Node)
    ensures Without(a + b, node) == Without(a, node) + Without(b, node)
  {
    if a == [] {
      assert a + b == b;
    } else {
      assert (a + b)[1..] == a[1..] + b;
      WithoutAppend(a[1..], b, node);
    }
  }
}
