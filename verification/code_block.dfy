/**
  The `CodeBlock` component: the text it copies, the language class of its
  `<pre>`, and the state of its copy button (the `copied` flag and the
  pending timer that resets it).
*/
module CodeBlock {
  import opened Wrappers
  import opened ReactNodes

  /** The props `CodeBlock` receives. */
  datatype CodeBlockProps = CodeBlockProps(
    children: Node,
    title: Option<string>,
    language: Option<string>,
    code: Option<string>)

  /** The array case of `getCodeText`: each string or number element gives
      its string form, any other element (a nested array too) gives `""`. */
  function ShallowText(items: seq<Node>): (text: string)
    ensures (forall i :: 0 <= i < |items| ==> !IsLeaf(items[i])) ==> text == ""
    ensures |items| == 1 && IsLeaf(items[0]) ==> text == LeafString(items[0])
  {
    if items == [] then ""
    else (if IsLeaf(items[0]) then LeafString(items[0]) else "") + ShallowText(items[1..])
  }

  /** `getCodeText(code, children)`: the text the copy button copies. A
      string `code` (even `""`) wins over `children`. */
  function GetCodeText(code: Option<string>, children: Node): (text: string)
    ensures code.Some? ==> text == code.value
    ensures code.None? && IsLeaf(children) ==> text == LeafString(children)
    ensures code.None? && !IsLeaf(children) && !children.List? ==> text == ""
  {
    if code.Some? then code.value
    else if IsLeaf(children) then LeafString(children)
    else if children.List? then ShallowText(children.items)
    else ""
  }

  lemma {:induction false} ShallowTextAppend(a: seq<Node>, b: seq<Node>)
    ensures ShallowText(a + b) == ShallowText(a) + ShallowText(b)
  {
    if a == [] {
      assert a + b == b;
    } else {
      assert (a + b)[0] == a[0];
      assert (a + b)[1..] == a[1..] + b;
      ShallowTextAppend(a[1..], b);
    }
  }

  /** The array case is an in-order concatenation: the text of an array is
      the text of its first part followed by that of the rest. */
  lemma CodeTextConcatenates(a: seq<Node>, b: seq<Node>)
    ensures GetCodeText(None, List(a + b)) == GetCodeText(None, List(a)) + GetCodeText(None, List(b))
  {
    ShallowTextAppend(a, b);
  }

  /** Flattening is one level deep: an element of the array that is itself
      an array, an element, a boolean or `null` contributes nothing. */
  lemma CodeTextSkipsNonLeaves(item: Node)
    ensures GetCodeText(None, List([item])) == (if IsLeaf(item) then LeafString(item) else "")
  {
    assert [item][1..] == [];
    assert ShallowText([item]) == (if IsLeaf(item) then LeafString(item) else "") + ShallowText([]);
  }

  /** The class of the `<pre>`: `language-<language>`, or `language-text`
      when the language is missing or empty. */
  function LanguageClass(language: Option<string>): (cls: string)
    ensures language.Some? && language.value != "" ==> cls == "language-" + language.value
    ensures language.None? || language.value == "" ==> cls == "language-text"
  {
    "language-" + (if language.None? || language.value == "" then "text" else language.value)
  }

  /** What the `<code>` element shows: `code` when it is a non-empty string,
      the children otherwise. */
  function Shown(code: Option<string>, children: Node): (shown: Node)
    ensures code.Some? && code.value != "" ==> shown == Text(code.value)
    ensures code.None? || code.value == "" ==> shown == children
  {
    if code.Some? && code.value != "" then Text(code.value) else children
  }

  /** With a non-empty `code` the button copies exactly the text shown; with
      `code` empty it copies nothing, whatever the children show. */
  lemma CopiesWhatIsShown(code: Option<string>, children: Node)
    ensures code.Some? && code.value != "" ==> GetCodeText(code, children) == LeafString(Shown(code, children))
    ensures code == Some("") ==> GetCodeText(code, children) == "" && Shown(code, children) == children
  {
  }

  /** The state of one rendered code block. `timeoutRef` is `timeoutRef.current`
      (`None` for `null`); `pending` are the reset timers the browser still
      holds; timer ids are positive and handed out in increasing order. */
  class CopyButton {
    const codeText: string
    var copied: bool
    var timeoutRef: Option<nat>
    var pending: set<nat>
    var nextTimerId: nat

    /** At most one reset timer is pending, and it is the one `timeoutRef`
        remembers. */
    ghost predicate Valid()
      reads this
    {
      && 0 < nextTimerId
      && (timeoutRef.Some? ==> 0 < timeoutRef.value < nextTimerId)
      && (forall id :: id in pending ==> timeoutRef == Some(id))
    }

    constructor (code: Option<string>, children: Node)
      ensures Valid()
      ensures codeText == GetCodeText(code, children)
      ensures !copied && timeoutRef == None && pending == {}
    {
      codeText := GetCodeText(code, children);
      copied := false;
      timeoutRef := None;
      pending := {};
      nextTimerId := 1;
    }

    /** `disabled={!codeText}` */
    function Disabled(): (disabled: bool)
      reads this
      ensures disabled <==> codeText == ""
    {
      codeText == ""
    }

    /** The button's text. */
    function Label(): (caption: string)
      reads this
      ensures caption == "Copied" <==> copied
      ensures caption == "Copy" <==> !copied
    {
      if copied then "Copied" else "Copy"
    }

    /** `handleCopy`, with the outcome of the clipboard write as a parameter.
        With no text nothing happens; a refused write changes nothing; a
        successful one sets `copied` and replaces any pending reset timer by
        a new one. */
    method HandleCopy(clipboardAccepts: bool)
      requires Valid()
      modifies this
      ensures Valid()
      ensures codeText == "" || !clipboardAccepts ==>
        copied == old(copied) && timeoutRef == old(timeoutRef) &&
        pending == old(pending) && nextTimerId == old(nextTimerId)
      ensures codeText != "" && clipboardAccepts ==>
        copied && timeoutRef == Some(old(nextTimerId)) &&
        pending == {old(nextTimerId)} && nextTimerId == old(nextTimerId) + 1
    {
      if codeText == "" {
        return;
      }
      if !clipboardAccepts {
        return;
      }
      copied := true;
      if timeoutRef.Some? && timeoutRef.value != 0 {
        pending := pending - {timeoutRef.value};
      }
      var id := nextTimerId;
      nextTimerId := nextTimerId + 1;
      pending := pending + {id};
      timeoutRef := Some(id);
    }

    /** The browser runs reset timer `id`: if it is still pending, `copied`
        becomes false. A cleared timer never runs. */
    method TimerFires(id: nat)
      requires Valid()
      modifies this
      ensures Valid()
      ensures old(id in pending) ==> !copied && pending == old(pending) - {id}
      ensures old(id !in pending) ==> copied == old(copied) && pending == old(pending)
      ensures timeoutRef == old(timeoutRef) && nextTimerId == old(nextTimerId)
    {
      if id in pending {
        pending := pending - {id};
        copied := false;
      }
    }

    /** The effect's clean-up on unmount clears the pending timer. */
    method Unmount()
      requires Valid()
      modifies this
      ensures Valid()
      ensures pending == {}
      ensures copied == old(copied) && timeoutRef == old(timeoutRef) && nextTimerId == old(nextTimerId)
    {
      if timeoutRef.Some? && timeoutRef.value != 0 {
        pending := pending - {timeoutRef.value};
      }
    }
  }

  /** A second copy before the first reset timer runs makes that timer
      harmless: when it fires, the button still shows "Copied" and only the
      second timer is pending. */
  method StaleTimerIsHarmless(b: CopyButton) returns (first: nat)
    requires b.Valid() && b.codeText != ""
    modifies b
    ensures b.Valid() && b.copied
    ensures b.timeoutRef.Some? && first != b.timeoutRef.value
    ensures b.pending == {b.timeoutRef.value}
  {
    b.HandleCopy(true);
    first := b.timeoutRef.value;
    b.HandleCopy(true);
    b.TimerFires(first);
  }

  /** After two copies and the stale first timer, the second timer shows
      "Copy" again and leaves nothing pending. */
  method CopyTwiceThenReset(b: CopyButton)
    requires b.Valid() && b.codeText != ""
    modifies b
    ensures b.Valid() && !b.copied && b.pending == {}
  {
    var _ := StaleTimerIsHarmless(b);
    b.TimerFires(b.timeoutRef.value);
  }
}
