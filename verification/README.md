# Portfolio site core: blog content resolver, code blocks and theme state

This project models in Dafny the parts of the portfolio web site that hold
logic:

- **The blog content resolver** (`lib/blog.ts`). It lists the `.mdx` files
  of the content directory and derives each post's slug from its file name.
  It fills in defaults for the front-matter header (`title`, `date`,
  `excerpt`, `tags`), sorts the posts newest first and looks one post up by
  slug. The directory is a snapshot value with three parts:
  - the listing;
  - the set of entries an existence test accepts (a dangling symbolic link
    is listed but does not exist);
  - a map from readable file names to their text.

  The front-matter parser (`gray-matter`) and the date key
  (`new Date(d).getTime()`) are function parameters.
- **The MDX code block** (`CodeBlock.tsx`, `mdx-components.tsx`). It covers:
  - the text the copy button copies (`getCodeText`, one level of flattening);
  - the text `Pre` extracts (`getTextFromNode`, flattening at any depth);
  - the language `Pre` reads from the `<code>` element's class;
  - the `language-…` class of the `<pre>`;
  - the copy button's `copied` flag and its reset timer.

  The copy button is a class whose methods change that state.
- **Callout and image captions** (`mdx-components.tsx`): the icon a
  callout shows for its type, and when an image's caption is rendered.
- **The theme toggle** (`ThemeToggle.tsx`). It is a class holding:
  - `isDark`;
  - the one-shot initialisation guard;
  - the `localStorage` map;
  - the `light-mode` class flag of the document element.
- **The pre-paint theme script** (`layout.tsx`). It scans `document.cookie`
  with `/(?:^|; )theme=([^;]+)/` and decides whether to add or remove
  `light-mode`.

Files:
- `wrappers.dfy`: `Option` and `Result`.
- `js.dfy`: `String(v)` on header values, the decimal form of integers, and the `\s` class.
- `react_node.dfy`: React nodes and `React.Children.toArray`.
- `blog.dfy`, `code_block.dfy`, `mdx_components.dfy`, `theme_toggle.dfy`, `layout.dfy`: one per source file.

The sort in `getAllPosts` is `Array.prototype.sort`, which ECMAScript
requires to be stable. It is modelled as a stable insertion sort. The model
proves that this sort:

- orders the posts newest first;
- is a permutation of its input;
- keeps posts with the same date key in their input order.

A read that throws (an `.mdx` entry that is a directory, an unreadable file
or a dangling link) is an error value naming the file. It is not a precondition.

`new Date(d).getTime()` of an unparseable date is `NaN`. The comparator
then returns `NaN` and no order is defined. The model takes the date key to
be a total integer function (see "Left out").

## Model

| member | source | states |
|---|---|---|
| Js.ToStr | lib/blog.ts:41-44 | `String(v)`: a string is kept; `null`, `undefined` and booleans spell their names; a number is its decimal form; an array is the join of its elements; another object is its display string |
| Js.JoinElements | lib/blog.ts:41-43 | `String` of an array: `""` for no elements, the string form of a lone element (`""` when nullish), and a comma for two or more |
| Js.JoinElementsAppend | lib/blog.ts:41-43 | joining two non-empty arrays put together gives their joins with one `,` between |
| Js.IntToDecimal | app/blog/components/mdx-components.tsx:46-47 | `String(n)` of a safe integer: non-empty, starts with `-` exactly for negatives, then the digits with no leading zero |
| Js.DecimalRoundTrip | app/blog/components/CodeBlock.tsx:19-20 | the decimal form of a natural number reads back as that number |
| Js.DecimalInjective | app/blog/components/CodeBlock.tsx:19-20 | different integers have different string forms |
| ReactNodes.ToArray | app/blog/components/mdx-components.tsx:58 | `React.Children.toArray` yields only strings, numbers and elements; a string, number or element gives itself; `null`, `undefined` and booleans give nothing |
| ReactNodes.ToArrayAllAppend | app/blog/components/mdx-components.tsx:58 | flattening keeps the children's order: it distributes over concatenation |
| Blog.StripMdx | lib/blog.ts:34 | removing the trailing `.mdx` gives a slug that, with `.mdx` appended, is the file name again; other names are kept unchanged |
| Blog.SlugRoundTrip | lib/blog.ts:34 | for every slug, `slug + ".mdx"` ends in `.mdx` and strips back to the slug |
| Blog.EndsWithMdxChars | lib/blog.ts:27 | `endsWith('.mdx')` holds iff the last four characters are `.`, `m`, `d`, `x` |
| Blog.FilterMdx | lib/blog.ts:27 | a name is kept exactly when it is listed and ends in `.mdx` |
| Blog.FilterMdxAppend | lib/blog.ts:25-27 | filtering keeps the listing order (it distributes over concatenation) |
| Blog.GetPostFiles | lib/blog.ts:20-28 | a missing directory gives `[]`; otherwise exactly the entries ending in `.mdx` |
| Blog.StringOr | lib/blog.ts:41-43 | `String(v ?? fallback)`: the fallback exactly on `null`/`undefined`, otherwise `String(v)`, so a present string is kept |
| Blog.Tags | lib/blog.ts:44 | defined iff the value is an array; then the same length with each element in string form |
| Blog.MapToStr | lib/blog.ts:44 | `tags.map(String)` keeps the length and converts element by element |
| Blog.ToPost | lib/blog.ts:39-48 | the slug comes from the file name, never from the header, and the body is kept |
| Blog.HeaderNormalisation | lib/blog.ts:41-44 | defaults `Untitled`, `1970-01-01` and `""` apply exactly when a field is missing, `null` or `undefined`; a present value (even `""`) is kept in string form; `tags` is defined iff the header holds an array, element by element |
| Blog.EmptyHeaderDefaults | lib/blog.ts:41-45 | an empty header gives every default and no tags |
| Blog.ReadFile | lib/blog.ts:36 | a read succeeds exactly on a readable entry, with its text, and otherwise fails naming the file |
| Blog.ParseAll | lib/blog.ts:33-49 | succeeds iff every file reads; the i-th post is built from the i-th file and its slug; a failure names an unreadable listed file |
| Blog.InsertByDate | lib/blog.ts:51-53 | inserting adds one element, and the head is the new post or the old head |
| Blog.InsertByDateSorted | lib/blog.ts:51-53 | inserting into a newest-first list keeps it newest first |
| Blog.InsertByDatePermutes | lib/blog.ts:51-53 | inserting adds exactly the one post (multiset) |
| Blog.InsertByDateStable | lib/blog.ts:51-53 | inserting keeps the order among posts with the same date key, the new post going first among its equals |
| Blog.SortByDate | lib/blog.ts:51-53 | sorting keeps the length |
| Blog.SortByDateSorted | lib/blog.ts:51-53 | the sorted list is non-increasing by the date key |
| Blog.SortByDatePermutes | lib/blog.ts:51-53 | the sorted list is a permutation of the input |
| Blog.SortByDateStable | lib/blog.ts:51-53 | for every date key, the posts with that key keep their input order |
| Blog.GetAllPosts | lib/blog.ts:30-54 | a missing directory gives `[]`; succeeds iff every `.mdx` entry reads; one post per `.mdx` file, newest first; a failure names a listed `.mdx` entry that cannot be read |
| Blog.AllPostsPermutePerFilePosts | lib/blog.ts:33-53 | the listing is a stable permutation of the per-file posts |
| Blog.ListedPostNamesItsFile | lib/blog.ts:33-47 | every listed post comes from the file `slug + ".mdx"`, which is listed, exists and is readable, normalised from its text |
| Blog.GetPostBySlug | lib/blog.ts:56-76 | `null` iff `<slug>.mdx` does not exist (a dangling link does not); an error iff it exists but cannot be read as a file; otherwise the post of that file with `meta.slug == slug` |
| Blog.DanglingLinkDiffers | lib/blog.ts:36-60 | a dangling `x.mdx` link makes the listing fail on reading it, while the lookup of `x` gives `null` |
| Blog.ListedSlugsResolve | lib/blog.ts:56-76 | looking up any listed slug gives back the very same post |
| Blog.ListedSlugsAreFileNames | lib/blog.ts:33-34 | every listed slug plus `.mdx` is one of the post files |
| CodeBlock.ShallowText | app/blog/components/CodeBlock.tsx:24-26 | an array with no string or number element gives `""`; a one-element array of a string or number gives its string form |
| CodeBlock.GetCodeText | app/blog/components/CodeBlock.tsx:14-30 | a string `code` (even `""`) wins; a string or number child gives its string form; a child that is neither an array nor a leaf gives `""` |
| CodeBlock.CodeTextConcatenates | app/blog/components/CodeBlock.tsx:23-27 | the array case is an in-order concatenation over the elements |
| CodeBlock.CodeTextSkipsNonLeaves | app/blog/components/CodeBlock.tsx:25 | an array element contributes its string form when it is a string or number, and `""` otherwise (a nested array too) |
| CodeBlock.LanguageClass | app/blog/components/CodeBlock.tsx:83 | `language-text` when the language is missing or empty, `language-<language>` otherwise |
| CodeBlock.Shown | app/blog/components/CodeBlock.tsx:84 | the `<code>` element shows a non-empty `code`, else the children |
| CodeBlock.CopiesWhatIsShown | app/blog/components/CodeBlock.tsx:76-84 | with non-empty `code` the copied text is the shown text; with `code` empty nothing is copied whatever is shown |
| CodeBlock.CopyButton.constructor | app/blog/components/CodeBlock.tsx:33-35 | starts not copied, with no timer, and copies `getCodeText(code, children)` |
| CodeBlock.CopyButton.Disabled | app/blog/components/CodeBlock.tsx:76 | the button is disabled iff there is no text to copy |
| CodeBlock.CopyButton.Label | app/blog/components/CodeBlock.tsx:80 | `Copied` iff copied, `Copy` otherwise |
| CodeBlock.CopyButton.HandleCopy | app/blog/components/CodeBlock.tsx:45-62 | with no text or a refused write nothing changes; a successful write sets `copied` and leaves exactly one pending timer, a fresh one, clearing the earlier one |
| CodeBlock.CopyButton.TimerFires | app/blog/components/CodeBlock.tsx:58 | a pending reset timer clears `copied`; a cleared timer does nothing |
| CodeBlock.CopyButton.Unmount | app/blog/components/CodeBlock.tsx:37-43 | unmounting clears the pending timer and changes nothing else |
| CodeBlock.StaleTimerIsHarmless | app/blog/components/CodeBlock.tsx:54-58 | after a second copy the first timer firing leaves `Copied` shown and only the second timer pending |
| CodeBlock.CopyTwiceThenReset | app/blog/components/CodeBlock.tsx:54-58 | after two copies and the stale first timer, the second timer resets the label and leaves nothing pending |
| MdxComponents.TextOf | app/blog/components/mdx-components.tsx:45-55 | `getTextFromNode`: a string or number gives its string form; any other non-array node gives `""` |
| MdxComponents.TextOfFlattened | app/blog/components/mdx-components.tsx:45-55 | `getTextFromNode` is the in-order concatenation of the texts of the fully flattened leaves; elements, `null` and booleans add nothing |
| MdxComponents.TextsOfAppend | app/blog/components/mdx-components.tsx:51 | the text of an array distributes over concatenation |
| MdxComponents.FlatArraysAgree | app/blog/components/mdx-components.tsx:50-52 | on flat arrays of strings and numbers `getTextFromNode` and `getCodeText` agree |
| MdxComponents.NestedArraysDiffer | app/blog/components/mdx-components.tsx:50-52 | one more level of nesting keeps the text for `getTextFromNode` but gives `""` for `getCodeText` |
| MdxComponents.CapturedAt | app/blog/components/mdx-components.tsx:63 | the `lang` group is a non-empty white-space-free run after `language-` that ends at white space or the end |
| MdxComponents.FindLanguageAt | app/blog/components/mdx-components.tsx:63 | the search finds the leftmost match position, or none iff there is no match |
| MdxComponents.ExtractLanguage | app/blog/components/mdx-components.tsx:62-64 | a non-string class gives no language; otherwise a language iff some position matches, and then it is the group at the leftmost match |
| MdxComponents.LanguageWithoutWordBoundary | app/blog/components/mdx-components.tsx:63 | `xlanguage-js` yields `js` |
| MdxComponents.Pre | app/blog/components/mdx-components.tsx:57-71 | an element first child gives its class's language and its children's text; otherwise no language and the text of all children |
| MdxComponents.PreWithoutElement | app/blog/components/mdx-components.tsx:70 | without an element first, the copied text is the flattened text of all children and the class is `language-text` |
| MdxComponents.PreLanguageClass | app/blog/components/mdx-components.tsx:61-67 | with an element first, the class names the extracted language, or `text` |
| MdxComponents.CalloutIcons | app/blog/components/mdx-components.tsx:8-21 | the type defaults to `info`; exactly one icon for each known type, the one for that type |
| MdxComponents.CalloutIconsDistinct | app/blog/components/mdx-components.tsx:17-20 | different types show different icons |
| MdxComponents.Caption | app/blog/components/mdx-components.tsx:37 | a caption is rendered iff it is given and non-empty |
| Theme.GetItem | app/components/ThemeToggle.tsx:18 | `localStorage.getItem`: a value iff the key is stored, and then the stored value |
| Theme.DarkFromStored | app/components/ThemeToggle.tsx:18-30 | light only for a stored `light`; `dark`, nothing or anything else gives dark |
| Theme.StoredValue | app/components/ThemeToggle.tsx:48-54 | a toggle stores `dark` iff dark and `light` iff light |
| Theme.StoredValueRoundTrip | app/components/ThemeToggle.tsx:18-54 | what a toggle stores, initialisation reads back as the same theme |
| Theme.ThemeToggle.constructor | app/components/ThemeToggle.tsx:8-9 | the component starts dark, with the guard unset |
| Theme.ThemeToggle.Init | app/components/ThemeToggle.tsx:13-31 | runs once (a second call changes nothing); sets `isDark` from the stored theme, the class to match, and writes nothing |
| Theme.ThemeToggle.Toggle | app/components/ThemeToggle.tsx:33-55 | negates `isDark`; the class matches it; the store holds the new theme and nothing else changes |
| Theme.ThemeToggle.ButtonIcon | app/components/ThemeToggle.tsx:64 | the sun is shown iff dark |
| Theme.ToggleTwice | app/components/ThemeToggle.tsx:33-55 | two toggles restore `isDark` and the class |
| Theme.Reload | app/components/ThemeToggle.tsx:13-31 | a component whose theme agrees with the storage (after a toggle, or after a first-visit initialisation) survives a reload: a new component initialised from the storage shows the same theme |
| Layout.ValueAt | app/layout.tsx:24 | the captured value is non-empty, free of `;`, and runs up to the next `;` or the end |
| Layout.FindMatch | app/layout.tsx:24 | the search finds the leftmost match position, or none iff there is no match |
| Layout.CookieTheme | app/layout.tsx:24 | none iff no position matches; otherwise a non-empty `;`-free value that follows `theme=` at the start or after `"; "` |
| Layout.CookieThemeLeftmost | app/layout.tsx:24 | the value comes from the leftmost match |
| Layout.ThemeScript | app/layout.tsx:24 | no entry removes the class; the class is added iff the decoded value is `light`; it is left alone iff decoding throws |
| Layout.ApplyChange | app/layout.tsx:24 | `classList.add` sets the flag, `classList.remove` clears it, and no change keeps it |
| Layout.NoEntryWithoutSeparator | app/layout.tsx:24 | without `theme=` at the start and without `"; "` there is no entry, and the class is removed |
| Layout.KeyInsideNameDoesNotMatch | app/layout.tsx:24 | `mytheme=light` removes the class |
| Layout.SeparatorWithoutSpaceDoesNotMatch | app/layout.tsx:24 | `a=1;theme=light` removes the class |
| Layout.EmptyValueMeansDark | app/layout.tsx:24 | `theme=;` removes the class |
| Layout.LeftmostEntryWins | app/layout.tsx:24 | `theme=light; theme=dark` adds the class |

## Left out

- Blog.SortByDate: the date key is a total integer function. `new Date(d).getTime()` can be `NaN`, and then the comparator is inconsistent and no order is defined. Such dates are not modelled.
- Js.IntToDecimal: numbers are safe integers (`Number.MIN_SAFE_INTEGER` to `Number.MAX_SAFE_INTEGER`), in header values and in React node children alike. Fractional and non-finite numbers are not modelled. Integers beyond the safe range are not modelled either: `String` prints those from 10^21 up in exponent form (`1e+21`).
- `Other` header values, such as a `Date` that YAML produces from a bare timestamp, carry their `String` form as given data. How that form is produced is not modelled.
- Blog.GetPostBySlug: `path.join(BLOG_DIR, slug + ".mdx")` is a lookup of the name `slug + ".mdx"` among the directory entries. Slugs containing `/` or `..` that reach other directories are not modelled.
- A content path that exists but is not a directory (`readdirSync` throwing) is not modelled.
- The real filesystem, `gray-matter` and `decodeURIComponent` are parameters. `gray-matter`'s caching and its exceptions on malformed headers are not modelled.
- CodeBlock.CopyButton.HandleCopy: the clipboard write is asynchronous. The model takes its outcome as a parameter and runs the rest of `handleCopy` at once. Interleavings of two pending writes are not modelled.
- CodeBlock.CopyButton.TimerFires: timer ids are modelled as increasing natural numbers. The 1500 ms delay is not modelled.
- `setTimeout` returning 0 is not modelled: `if (timeoutRef.current)` would then skip the clear.
- Strings are sequences of Unicode scalar values, while JavaScript strings are UTF-16 code units, so lone surrogates cannot be represented. For well-formed text, `endsWith('.mdx')`, `[^\s]+` and `[^;]+` treat the characters the same way.
- Theme.ThemeToggle.Toggle: the GSAP rotation of the button is left out, as are all styles and markup.
- The toggle writes `localStorage`, while the layout script reads `document.cookie`. They are separate stores and the model keeps them separate. `layout.tsx` does not mount the toggle.
- `Prose`, the `Img` markup and CSS module class names are markup only. The `aria-label` and `data-copied` attributes follow `copied` exactly as `Label` does.
