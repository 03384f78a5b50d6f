/**
  The components the blog's MDX content is rendered with: `Pre` (which turns
  a fenced code block into a `CodeBlock`, taking its text and its language
  from the `<code>` element inside), `Callout` and `Img`.
*/
module MdxComponents {
  import opened Wrappers
  import Js
  import opened ReactNodes
  import CodeBlock

  /** `getTextFromNode(node)`: strings and numbers give their string form,
      arrays the text of their elements at any depth, anything else `""`. */
  function TextOf(node: Node): (text: string)
    ensures IsLeaf(node) ==> text == LeafString(node)
    ensures !IsLeaf(node) && !node.List? ==> text == ""
    decreases node
  {
    match node
    case Text(s) => s
    case Number(n) => Js.IntToDecimal(n)
    case List(items) => TextsOf(items)
    case _ => ""
  }

  /** `items.map(getTextFromNode).join('')` */
  function TextsOf(items: seq<Node>): string
    decreases items
  {
    if items == [] then "" else TextOf(items[0]) + TextsOf(items[1..])
  }

  lemma {:induction false} TextsOfAppend(a: seq<Node>, b: seq<Node>)
    ensures TextsOf(a + b) == TextsOf(a) + TextsOf(b)
  {
    if a == [] {
      assert a + b == b;
    } else {
      assert (a + b)[0] == a[0];
      assert (a + b)[1..] == a[1..] + b;
      TextsOfAppend(a[1..], b);
    }
  }

  lemma TextsOfSingle(node: Node)
    ensures TextsOf([node]) == TextOf(node)
  {
    assert [node][1..] == [];
  }

  /** The text of a node is the in-order concatenation of the texts of the
      leaves `React.Children.toArray` flattens it to: nesting depth and
      `null`/boolean children do not change it. */
  lemma {:induction false} TextOfFlattened(node: Node)
    ensures TextsOf(ToArray(node)) == TextOf(node)
    decreases node
  {
    match node
    case List(items) => TextsOfFlattened(items);
    case Text(_) => TextsOfSingle(node);
    case Number(_) => TextsOfSingle(node);
    case Element(_, _) => TextsOfSingle(node);
    case _ =>
  }

  lemma {:induction false} TextsOfFlattened(items: seq<Node>)
    ensures TextsOf(ToArrayAll(items)) == TextsOf(items)
    decreases items
  {
    if items != [] {
      TextOfFlattened(items[0]);
      TextsOfFlattened(items[1..]);
      TextsOfAppend(ToArray(items[0]), ToArrayAll(items[1..]));
    }
  }

  lemma {:induction false} LeavesAgree(items: seq<Node>)
    requires forall i :: 0 <= i < |items| ==> IsLeaf(items[i])
    ensures TextsOf(items) == CodeBlock.ShallowText(items)
  {
    if items != [] {
      LeavesAgree(items[1..]);
    }
  }

  /** On a flat array of strings and numbers, `getTextFromNode` and
      `CodeBlock`'s `getCodeText` give the same text. */
  lemma FlatArraysAgree(items: seq<Node>)
    requires forall i :: 0 <= i < |items| ==> IsLeaf(items[i])
    ensures TextOf(List(items)) == CodeBlock.GetCodeText(None, List(items))
  {
    LeavesAgree(items);
  }

  /** With one more level of nesting they part: `getTextFromNode` still
      finds the text, `getCodeText` finds none. */
  lemma NestedArraysDiffer(items: seq<Node>)
    ensures TextOf(List([List(items)])) == TextOf(List(items))
    ensures CodeBlock.GetCodeText(None, List([List(items)])) == ""
  {
    TextsOfSingle(List(items));
    CodeBlock.CodeTextSkipsNonLeaves(List(items));
  }

  const LanguagePrefix: string := "language-"

  /** The pattern `language-(?<lang>[^\s]+)` matches at `i`: the prefix
      followed by at least one non-white-space character. */
  predicate LanguageAt(c: string, i: nat) {
    && i + |LanguagePrefix| < |c|
    && c[i..i + |LanguagePrefix|] == LanguagePrefix
    && !Js.IsSpace(c[i + |LanguagePrefix|])
  }

  /** The end of the run of non-white-space characters that starts at `j`. */
  function RunEnd(c: string, j: nat): (e: nat)
    requires j <= |c|
    ensures j <= e <= |c|
    ensures forall k :: j <= k < e ==> !Js.IsSpace(c[k])
    ensures e < |c| ==> Js.IsSpace(c[e])
    decreases |c| - j
  {
    if j == |c| || Js.IsSpace(c[j]) then j else RunEnd(c, j + 1)
  }

  /** The `lang` group of a match at `i`: the greedy `[^\s]+`, so a
      non-empty run without white space that ends at white space or at the
      end of the string. */
  function CapturedAt(c: string, i: nat): (lang: string)
    requires LanguageAt(c, i)
    ensures lang != []
    ensures forall k :: 0 <= k < |lang| ==> !Js.IsSpace(lang[k])
    ensures i + |LanguagePrefix| + |lang| <= |c|
    ensures c[i..i + |LanguagePrefix| + |lang|] == LanguagePrefix + lang
    ensures i + |LanguagePrefix| + |lang| < |c| ==> Js.IsSpace(c[i + |LanguagePrefix| + |lang|])
  {
    var start := i + |LanguagePrefix|;
    var lang := c[start..RunEnd(c, start)];
    assert c[i..start + |lang|] == c[i..start] + lang;
    lang
  }

  /** The regular-expression search from position `from`: the leftmost
      position where the pattern matches, if any. */
  function FindLanguageAt(c: string, from: nat): (at: Option<nat>)
    requires from <= |c|
    ensures at.None? <==> forall i :: from <= i < |c| ==> !LanguageAt(c, i)
    ensures at.Some? ==> from <= at.value < |c| && LanguageAt(c, at.value)
    ensures at.Some? ==> forall j :: from <= j < at.value ==> !LanguageAt(c, j)
    decreases |c| - from
  {
    if from == |c| then None
    else if LanguageAt(c, from) then Some(from)
    else FindLanguageAt(c, from + 1)
  }

  /** `className.match(/language-(?<lang>[^\s]+)/)?.groups?.lang` for the
      `className` prop, read as `""` when it is not a string. The leftmost
      match decides, and there is no word boundary before `language-`. */
  function ExtractLanguage(className: Js.Value): (lang: Option<string>)
    ensures !className.Str? ==> lang.None?
    ensures className.Str? ==>
      (lang.None? <==> forall i :: 0 <= i < |className.s| ==> !LanguageAt(className.s, i))
    ensures lang.Some? ==> lang.value != [] && forall k :: 0 <= k < |lang.value| ==> !Js.IsSpace(lang.value[k])
    ensures lang.Some? ==>
      exists i :: 0 <= i < |className.s| && LanguageAt(className.s, i) &&
        lang.value == CapturedAt(className.s, i) &&
        forall j :: 0 <= j < i ==> !LanguageAt(className.s, j)
  {
    var c := if className.Str? then className.s else "";
    match FindLanguageAt(c, 0)
    case None => None
    case Some(i) => Some(CapturedAt(c, i))
  }

  /** `xlanguage-js` yields `js`: the prefix may sit inside a word. */
  lemma LanguageWithoutWordBoundary()
    ensures ExtractLanguage(Js.Str("xlanguage-js")) == Some("js")
  {
    var c := "xlanguage-js";
    assert c[0..|LanguagePrefix|][0] == 'x';
    assert !LanguageAt(c, 0);
    assert c[1..10] == LanguagePrefix;
    assert LanguageAt(c, 1);
    assert RunEnd(c, 12) == 12;
    assert RunEnd(c, 11) == 12;
    assert RunEnd(c, 10) == 12;
    assert CapturedAt(c, 1) == c[10..12] == "js";
    assert FindLanguageAt(c, 0) == Some(1);
  }

  /** `Pre(props)`: the first child, after flattening, decides. When it is
      an element, the code block gets its language and the text of its
      children; otherwise it gets no language and the text of all the
      children. */
  function Pre(children: Node): (props: CodeBlock.CodeBlockProps)
    ensures props.children == Undefined && props.title == None && props.code.Some?
    ensures var kids := ToArray(children);
      if |kids| > 0 && kids[0].Element? then
        props.language == ExtractLanguage(kids[0].className) &&
        props.code.value == TextOf(kids[0].children)
      else
        props.language == None && props.code.value == TextOf(children)
  {
    var kids := ToArray(children);
    if |kids| > 0 && kids[0].Element? then
      CodeBlock.CodeBlockProps(Undefined, None, ExtractLanguage(kids[0].className), Some(TextOf(kids[0].children)))
    else
      CodeBlock.CodeBlockProps(Undefined, None, None, Some(TextOf(children)))
  }

  /** When the first child is not an element, the copy button copies the
      text of every flattened child, in order, and the block is rendered as
      plain text. */
  lemma PreWithoutElement(children: Node)
    requires var kids := ToArray(children); !(|kids| > 0 && kids[0].Element?)
    ensures CodeBlock.GetCodeText(Pre(children).code, Pre(children).children) == TextsOf(ToArray(children))
    ensures CodeBlock.LanguageClass(Pre(children).language) == "language-text"
  {
    TextOfFlattened(children);
  }

  /** With a `<code>` element first, the block's class names the language
      the element's class gives, or `text` when it gives none. */
  lemma PreLanguageClass(children: Node)
    requires var kids := ToArray(children); |kids| > 0 && kids[0].Element?
    ensures var lang := ExtractLanguage(ToArray(children)[0].className);
      CodeBlock.LanguageClass(Pre(children).language)
        == if lang.Some? then "language-" + lang.value else "language-text"
  {
  }

  const InfoIcon: string := "\U{1F4A1}"
  const WarningIcon: string := "\U{26A0}\U{FE0F}"
  const SuccessIcon: string := "\U{2705}"
  const ErrorIcon: string := "\U{274C}"

  /** The `type` prop of `Callout`, `info` when it is not given. */
  function CalloutType(kind: Option<string>): string {
    if kind.None? then "info" else kind.value
  }

  /** The icons `Callout` renders: one `type === ... && icon` per known type. */
  function CalloutIcons(kind: Option<string>): (icons: seq<string>)
    ensures |icons| <= 1
    ensures |icons| == 1 <==> CalloutType(kind) in ["info", "warning", "success", "error"]
    ensures CalloutType(kind) == "info" ==> icons == [InfoIcon]
    ensures CalloutType(kind) == "warning" ==> icons == [WarningIcon]
    ensures CalloutType(kind) == "success" ==> icons == [SuccessIcon]
    ensures CalloutType(kind) == "error" ==> icons == [ErrorIcon]
  {
    var t := CalloutType(kind);
    (if t == "info" then [InfoIcon] else [])
    + (if t == "warning" then [WarningIcon] else [])
    + (if t == "success" then [SuccessIcon] else [])
    + (if t == "error" then [ErrorIcon] else [])
  }

  /** Different callout types show different icons. */
  lemma CalloutIconsDistinct(a: Option<string>, b: Option<string>)
    requires |CalloutIcons(a)| == 1 && |CalloutIcons(b)| == 1
    requires CalloutType(a) != CalloutType(b)
    ensures CalloutIcons(a) != CalloutIcons(b)
  {
    assert InfoIcon[0] != WarningIcon[0] && InfoIcon[0] != SuccessIcon[0] && InfoIcon[0] != ErrorIcon[0];
    assert WarningIcon[0] != SuccessIcon[0] && WarningIcon[0] != ErrorIcon[0];
    assert SuccessIcon[0] != ErrorIcon[0];
  }

  /** `Img`'s caption: rendered only when given and non-empty. */
  function Caption(caption: Option<string>): (shown: Option<string>)
    ensures shown.Some? <==> caption.Some? && caption.value != ""
    ensures shown.Some? ==> shown == caption
  {
    if caption.Some? && caption.value != "" then caption else None
  }
}
