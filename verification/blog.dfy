/**
  The file-backed blog content resolver: it lists the `.mdx` files of the
  content directory, derives each post's slug from its file name, fills in
  defaults for the header fields, sorts the posts newest first and looks a
  single post up by slug.

  The directory is a snapshot value; the front-matter parser (`matter`) and
  the date-to-time conversion (`new Date(d).getTime()`) are parameters, since
  the resolver only calls into them.
*/
module Blog {
  import opened Wrappers
  import Js

  /** The metadata of one post; `tags` is `None` when the header has no list. */
  datatype BlogPostMeta = BlogPostMeta(
    title: string,
    date: string,
    excerpt: string,
    tags: Option<seq<string>>,
    slug: string)

  datatype BlogPost = BlogPost(meta: BlogPostMeta, content: string)

  /** What the front-matter parser returns: the header data and the body. */
  datatype Matter = Matter(data: map<string, Js.Value>, content: string)

  /** A snapshot of the content directory. `entries` is what a directory
      listing returns, in its order. `existing` are the entries for which an
      existence test, which follows symbolic links, says yes: a link whose
      target is gone is listed but does not exist. `files` holds the text of
      the entries that can be read as files; reading any other name throws
      (a sub-directory, an unreadable file, a dangling link). */
  datatype ContentDir =
    | Missing
    | Present(entries: seq<string>, existing: set<string>, files: map<string, string>)

  /** What every real directory satisfies: a readable file exists, and
      whatever exists is listed. */
  predicate Consistent(dir: ContentDir) {
    dir.Present? ==>
      && dir.files.Keys <= dir.existing
      && forall n :: n in dir.existing ==> n in dir.entries
  }

  type Directory = dir: ContentDir | Consistent(dir) witness Missing

  /** The exception a failed file read throws, naming the file. */
  datatype ReadError = ReadError(fileName: string)

  const Extension: string := ".mdx"

  const DefaultTitle: string := "Untitled"
  const DefaultDate: string := "1970-01-01"
  const DefaultExcerpt: string := ""

  /** `fileName.endsWith('.mdx')` */
  predicate EndsWithMdx(name: string) {
    |name| >= |Extension| && name[|name| - |Extension|..] == Extension
  }

  /** A name ends with `.mdx` exactly when its last four characters are
      `.`, `m`, `d` and `x`. */
  lemma EndsWithMdxChars(name: string)
    ensures EndsWithMdx(name) <==>
      && |name| >= 4
      && name[|name| - 4] == '.' && name[|name| - 3] == 'm'
      && name[|name| - 2] == 'd' && name[|name| - 1] == 'x'
  {
    if |name| >= 4 {
      var tail := name[|name| - 4..];
      assert tail[0] == name[|name| - 4] && tail[1] == name[|name| - 3];
      assert tail[2] == name[|name| - 2] && tail[3] == name[|name| - 1];
    }
  }

  /** `fileName.replace(/\.mdx$/, '')`: drops one trailing `.mdx`. */
  function StripMdx(name: string): (slug: string)
    ensures EndsWithMdx(name) ==> slug + Extension == name
    ensures !EndsWithMdx(name) ==> slug == name
  {
    if EndsWithMdx(name) then name[..|name| - |Extension|] else name
  }

  /** The slug of a post file and its file name determine each other. */
  lemma SlugRoundTrip(slug: string)
    ensures EndsWithMdx(slug + Extension)
    ensures StripMdx(slug + Extension) == slug
  {
    assert (slug + Extension)[..|slug|] == slug;
  }

  /** `names.filter((fileName) => fileName.endsWith('.mdx'))` */
  function FilterMdx(names: seq<string>): (kept: seq<string>)
    ensures forall n :: n in kept <==> n in names && EndsWithMdx(n)
    ensures |kept| <= |names|
  {
    if names == [] then []
    else (if EndsWithMdx(names[0]) then [names[0]] else []) + FilterMdx(names[1..])
  }

  /** Filtering keeps the listing order: it distributes over concatenation. */
  lemma {:induction false} FilterMdxAppend(a: seq<string>, b: seq<string>)
    ensures FilterMdx(a + b) == FilterMdx(a) + FilterMdx(b)
  {
    if a == [] {
      assert a + b == b;
    } else {
      assert (a + b)[0] == a[0];
      assert (a + b)[1..] == a[1..] + b;
      FilterMdxAppend(a[1..], b);
    }
  }

  /** The names of the post files: none when the directory does not exist,
      otherwise exactly the listed entries ending in `.mdx`. */
  function GetPostFiles(dir: Directory): (names: seq<string>)
    ensures dir.Missing? ==> names == []
    ensures forall n :: n in names <==> dir.Present? && n in dir.entries && EndsWithMdx(n)
    ensures forall n :: n in names ==> EndsWithMdx(n)
  {
    match dir
    case Missing => []
    case Present(entries, _, _) => FilterMdx(entries)
  }

  /** `data[key]`, `undefined` when the header has no such key. */
  function Field(data: map<string, Js.Value>, key: string): Js.Value {
    if key in data then data[key] else Js.Undefined
  }

  /** `String(v ?? fallback)` */
  function StringOr(v: Js.Value, fallback: string): (s: string)
    ensures Js.IsNullish(v) ==> s == fallback
    ensures !Js.IsNullish(v) ==> s == Js.ToStr(v)
    ensures v.Str? ==> s == v.s
  {
    if Js.IsNullish(v) then fallback else Js.ToStr(v)
  }

  /** `items.map(String)` */
  function MapToStr(items: seq<Js.Value>): (r: seq<string>)
    ensures |r| == |items|
    ensures forall i :: 0 <= i < |items| ==> r[i] == Js.ToStr(items[i])
  {
    if items == [] then [] else [Js.ToStr(items[0])] + MapToStr(items[1..])
  }

  /** `Array.isArray(v) ? v.map(String) : undefined` */
  function Tags(v: Js.Value): (tags: Option<seq<string>>)
    ensures tags.Some? <==> v.Arr?
    ensures tags.Some? ==>
      |tags.value| == |v.items| &&
      forall i :: 0 <= i < |v.items| ==> tags.value[i] == Js.ToStr(v.items[i])
  {
    if v.Arr? then Some(MapToStr(v.items)) else None
  }

  /** The post built from one parsed file and the slug of its name: the
      slug never comes from the header, and the body is kept as it is. */
  function ToPost(m: Matter, slug: string): (post: BlogPost)
    ensures post.meta.slug == slug && post.content == m.content
  {
    var data := m.data;
    BlogPost(
      BlogPostMeta(
        StringOr(Field(data, "title"), DefaultTitle),
        StringOr(Field(data, "date"), DefaultDate),
        StringOr(Field(data, "excerpt"), DefaultExcerpt),
        Tags(Field(data, "tags")),
        slug),
      m.content)
  }

  /** How the header fields are normalised: `??` falls back to the default
      only on a missing, `null` or `undefined` value, so a present string
      (even the empty one) is kept as it is; `tags` is defined exactly when
      the header holds an array, element by element in string form. */
  lemma HeaderNormalisation(m: Matter, slug: string)
    ensures var meta := ToPost(m, slug).meta;
      && (Js.IsNullish(Field(m.data, "title")) ==> meta.title == DefaultTitle)
      && (Js.IsNullish(Field(m.data, "date")) ==> meta.date == DefaultDate)
      && (Js.IsNullish(Field(m.data, "excerpt")) ==> meta.excerpt == DefaultExcerpt)
      && (!Js.IsNullish(Field(m.data, "title")) ==> meta.title == Js.ToStr(m.data["title"]))
      && (!Js.IsNullish(Field(m.data, "date")) ==> meta.date == Js.ToStr(m.data["date"]))
      && (!Js.IsNullish(Field(m.data, "excerpt")) ==> meta.excerpt == Js.ToStr(m.data["excerpt"]))
      && ("title" in m.data && m.data["title"].Str? ==> meta.title == m.data["title"].s)
      && ("date" in m.data && m.data["date"].Str? ==> meta.date == m.data["date"].s)
      && ("excerpt" in m.data && m.data["excerpt"].Str? ==> meta.excerpt == m.data["excerpt"].s)
      && (meta.tags.Some? <==> "tags" in m.data && m.data["tags"].Arr?)
      && (meta.tags.Some? ==>
            |meta.tags.value| == |m.data["tags"].items| &&
            forall i :: 0 <= i < |meta.tags.value| ==>
              meta.tags.value[i] == Js.ToStr(m.data["tags"].items[i]))
  {
  }

  /** A file whose header is empty gets every default and no tags. */
  lemma EmptyHeaderDefaults(content: string, slug: string)
    ensures ToPost(Matter(map[], content), slug).meta
         == BlogPostMeta(DefaultTitle, DefaultDate, DefaultExcerpt, None, slug)
  {
  }

  /** The contents of the content directory as a file map (`{}` when the
      directory does not exist). */
  function FilesOf(dir: ContentDir): map<string, string> {
    if dir.Present? then dir.files else map[]
  }

  /** `readFileSync(path.join(BLOG_DIR, name), 'utf8')` */
  function ReadFile(dir: Directory, name: string): (r: Result<string, ReadError>)
    ensures r.Success? <==> dir.Present? && name in dir.files
    ensures r.Success? ==> r.value == dir.files[name]
    ensures r.Failure? ==> r.error == ReadError(name)
  {
    if dir.Present? && name in dir.files then Success(dir.files[name]) else Failure(ReadError(name))
  }

  /** `files.map(...)` in `getAllPosts`: reads and normalises every named file
      in order; the first read that throws aborts the whole listing. */
  function ParseAll(dir: Directory, names: seq<string>, parse: string -> Matter)
    : (r: Result<seq<BlogPost>, ReadError>)
    ensures r.Success? <==> forall n :: n in names ==> n in FilesOf(dir)
    ensures r.Success? ==>
      |r.value| == |names| &&
      forall i :: 0 <= i < |names| ==>
        r.value[i] == ToPost(parse(FilesOf(dir)[names[i]]), StripMdx(names[i]))
    ensures r.Failure? ==> r.error.fileName in names && r.error.fileName !in FilesOf(dir)
  {
    if names == [] then Success([])
    else
      match ReadFile(dir, names[0])
      case Failure(e) =>
        assert names[0] in names;
        Failure(e)
      case Success(source) =>
        match ParseAll(dir, names[1..], parse)
        case Failure(e) => Failure(e)
        case Success(rest) =>
          var post := ToPost(parse(source), StripMdx(names[0]));
          ParsedCons(post, rest, names, FilesOf(dir), parse);
          Success([post] + rest)
  }

  /** The step of `ParseAll`: the post of the first file in front of the
      posts of the others. */
  lemma ParsedCons(post: BlogPost, rest: seq<BlogPost>, names: seq<string>,
                   files: map<string, string>, parse: string -> Matter)
    requires names != [] && names[0] in files
    requires post == ToPost(parse(files[names[0]]), StripMdx(names[0]))
    requires |rest| == |names| - 1
    requires forall n :: n in names[1..] ==> n in files
    requires forall i :: 0 <= i < |names| - 1 ==>
      names[1..][i] in files &&
      rest[i] == ToPost(parse(files[names[1..][i]]), StripMdx(names[1..][i]))
    ensures forall i :: 0 <= i < |names| ==>
      names[i] in files &&
      ([post] + rest)[i] == ToPost(parse(files[names[i]]), StripMdx(names[i]))
  {
    forall i | 0 <= i < |names|
      ensures names[i] in files
      ensures ([post] + rest)[i] == ToPost(parse(files[names[i]]), StripMdx(names[i]))
    {
      if i > 0 {
        assert names[i] == names[1..][i - 1];
        assert names[1..][i - 1] in names[1..];
      }
    }
  }

  /** The sort key `new Date(p.meta.date).getTime()`. */
  function Time(p: BlogPost, time: string -> int): int {
    time(p.meta.date)
  }

  /** Non-increasing by date key: the newest post comes first. */
  ghost predicate NewestFirst(posts: seq<BlogPost>, time: string -> int) {
    forall i, j :: 0 <= i < j < |posts| ==> Time(posts[i], time) >= Time(posts[j], time)
  }

  /** A post at least as new as the head of a newest-first list can go in
      front of it. */
  lemma PrependNewest(q: BlogPost, rest: seq<BlogPost>, time: string -> int)
    requires NewestFirst(rest, time)
    requires rest == [] || Time(q, time) >= Time(rest[0], time)
    ensures NewestFirst([q] + rest, time)
  {
    var r := [q] + rest;
    forall i, j | 0 <= i < j < |r| ensures Time(r[i], time) >= Time(r[j], time) {
      if i == 0 {
        assert Time(rest[0], time) >= Time(rest[j - 1], time);
      } else {
        assert r[i] == rest[i - 1] && r[j] == rest[j - 1];
      }
    }
  }

  /** Puts `p` in front of the first post that is not newer than it. */
  function InsertByDate(p: BlogPost, posts: seq<BlogPost>, time: string -> int): (r: seq<BlogPost>)
    ensures |r| == |posts| + 1
    ensures r[0] == p || (posts != [] && r[0] == posts[0])
  {
    if posts == [] || Time(p, time) >= Time(posts[0], time) then [p] + posts
    else [posts[0]] + InsertByDate(p, posts[1..], time)
  }

  /** Inserting into a newest-first list keeps it newest first. */
  lemma {:induction false} InsertByDateSorted(p: BlogPost, posts: seq<BlogPost>, time: string -> int)
    requires NewestFirst(posts, time)
    ensures NewestFirst(InsertByDate(p, posts, time), time)
  {
    if posts == [] || Time(p, time) >= Time(posts[0], time) {
      PrependNewest(p, posts, time);
    } else {
      var rest := InsertByDate(p, posts[1..], time);
      assert NewestFirst(posts[1..], time) by {
        forall i, j | 0 <= i < j < |posts| - 1
          ensures Time(posts[1..][i], time) >= Time(posts[1..][j], time)
        {
          assert posts[1..][i] == posts[i + 1] && posts[1..][j] == posts[j + 1];
        }
      }
      InsertByDateSorted(p, posts[1..], time);
      if |posts| > 1 {
        assert Time(posts[0], time) >= Time(posts[1], time);
      }
      PrependNewest(posts[0], rest, time);
    }
  }

  /** Inserting adds exactly the one post. */
  lemma {:induction false} InsertByDatePermutes(p: BlogPost, posts: seq<BlogPost>, time: string -> int)
    ensures multiset(InsertByDate(p, posts, time)) == multiset(posts) + multiset{p}
  {
    if !(posts == [] || Time(p, time) >= Time(posts[0], time)) {
      var rest := InsertByDate(p, posts[1..], time);
      assert InsertByDate(p, posts, time) == [posts[0]] + rest;
      InsertByDatePermutes(p, posts[1..], time);
      MultisetOfTail(posts);
    }
  }

  /** `posts.sort((a, b) => time(b.meta.date) - time(a.meta.date))`: newest
      first. The built-in sort is stable, so posts with equal keys keep
      their order; sorting by insertion from the back reproduces that
      result (`SortByDateStable`). */
  function SortByDate(posts: seq<BlogPost>, time: string -> int): (r: seq<BlogPost>)
    ensures |r| == |posts|
  {
    if posts == [] then [] else InsertByDate(posts[0], SortByDate(posts[1..], time), time)
  }

  /** The sorted list is newest first. */
  lemma {:induction false} SortByDateSorted(posts: seq<BlogPost>, time: string -> int)
    ensures NewestFirst(SortByDate(posts, time), time)
  {
    if posts != [] {
      SortByDateSorted(posts[1..], time);
      InsertByDateSorted(posts[0], SortByDate(posts[1..], time), time);
    }
  }

  /** Sorting neither loses nor duplicates a post. */
  lemma {:induction false} SortByDatePermutes(posts: seq<BlogPost>, time: string -> int)
    ensures multiset(SortByDate(posts, time)) == multiset(posts)
  {
    if posts != [] {
      var rest := SortByDate(posts[1..], time);
      assert SortByDate(posts, time) == InsertByDate(posts[0], rest, time);
      SortByDatePermutes(posts[1..], time);
      InsertByDatePermutes(posts[0], rest, time);
      MultisetOfTail(posts);
    }
  }

  lemma MultisetOfTail(posts: seq<BlogPost>)
    requires posts != []
    ensures multiset(posts) == multiset(posts[1..]) + multiset{posts[0]}
  {
    assert posts == [posts[0]] + posts[1..];
  }

  /** The posts whose date key is `k`, in their order. */
  function WithTime(posts: seq<BlogPost>, time: string -> int, k: int): seq<BlogPost> {
    if posts == [] then []
    else (if Time(posts[0], time) == k then [posts[0]] else []) + WithTime(posts[1..], time, k)
  }

  lemma WithTimeCons(q: BlogPost, rest: seq<BlogPost>, time: string -> int, k: int)
    ensures WithTime([q] + rest, time, k) == (if Time(q, time) == k then [q] else []) + WithTime(rest, time, k)
  {
    assert ([q] + rest)[1..] == rest;
  }

  lemma {:induction false} InsertByDateStable(p: BlogPost, posts: seq<BlogPost>, time: string -> int, k: int)
    ensures WithTime(InsertByDate(p, posts, time), time, k)
         == (if Time(p, time) == k then [p] else []) + WithTime(posts, time, k)
  {
    if posts == [] || Time(p, time) >= Time(posts[0], time) {
      assert InsertByDate(p, posts, time) == [p] + posts;
      WithTimeCons(p, posts, time, k);
    } else {
      var rest := InsertByDate(p, posts[1..], time);
      assert InsertByDate(p, posts, time) == [posts[0]] + rest;
      WithTimeCons(posts[0], rest, time, k);
      InsertByDateStable(p, posts[1..], time, k);
      assert posts == [posts[0]] + posts[1..];
      WithTimeCons(posts[0], posts[1..], time, k);
      var tail := WithTime(posts[1..], time, k);
      if Time(p, time) == k {
        assert Time(posts[0], time) != k;
        assert WithTime(rest, time, k) == [p] + tail;
      } else {
        assert WithTime(rest, time, k) == tail;
      }
    }
  }

  /** The sort is stable: among posts with the same date key the original
      order is kept. */
  lemma {:induction false} SortByDateStable(posts: seq<BlogPost>, time: string -> int, k: int)
    ensures WithTime(SortByDate(posts, time), time, k) == WithTime(posts, time, k)
  {
    if posts != [] {
      SortByDateStable(posts[1..], time, k);
      InsertByDateStable(posts[0], SortByDate(posts[1..], time), time, k);
    }
  }

  /** `getAllPosts()`: one post per `.mdx` file, newest first. It succeeds
      exactly when every `.mdx` entry can be read, and a missing directory
      gives the empty list rather than an error. */
  function GetAllPosts(dir: Directory, parse: string -> Matter, time: string -> int)
    : (r: Result<seq<BlogPost>, ReadError>)
    ensures dir.Missing? ==> r == Success([])
    ensures r.Success? <==> forall n :: n in GetPostFiles(dir) ==> n in FilesOf(dir)
    ensures r.Success? ==> NewestFirst(r.value, time) && |r.value| == |GetPostFiles(dir)|
    ensures r.Failure? ==>
      r.error.fileName in GetPostFiles(dir) && EndsWithMdx(r.error.fileName) &&
      r.error.fileName !in FilesOf(dir)
  {
    match ParseAll(dir, GetPostFiles(dir), parse)
    case Failure(e) => Failure(e)
    case Success(posts) =>
      SortByDateSorted(posts, time);
      Success(SortByDate(posts, time))
  }

  /** The listing is a permutation of the per-file posts, sorted stably. */
  lemma AllPostsPermutePerFilePosts(dir: Directory, parse: string -> Matter, time: string -> int, k: int)
    requires GetAllPosts(dir, parse, time).Success?
    ensures ParseAll(dir, GetPostFiles(dir), parse).Success?
    ensures multiset(GetAllPosts(dir, parse, time).value)
         == multiset(ParseAll(dir, GetPostFiles(dir), parse).value)
    ensures WithTime(GetAllPosts(dir, parse, time).value, time, k)
         == WithTime(ParseAll(dir, GetPostFiles(dir), parse).value, time, k)
  {
    SortByDatePermutes(ParseAll(dir, GetPostFiles(dir), parse).value, time);
    SortByDateStable(ParseAll(dir, GetPostFiles(dir), parse).value, time, k);
  }

  /** Every listed post comes from the `.mdx` file named after its slug. */
  lemma ListedPostNamesItsFile(dir: Directory, parse: string -> Matter, time: string -> int, p: BlogPost)
    requires GetAllPosts(dir, parse, time).Success?
    requires p in GetAllPosts(dir, parse, time).value
    ensures dir.Present?
    ensures p.meta.slug + Extension in dir.entries
    ensures p.meta.slug + Extension in dir.existing
    ensures p.meta.slug + Extension in dir.files
    ensures p == ToPost(parse(dir.files[p.meta.slug + Extension]), p.meta.slug)
  {
    var names := GetPostFiles(dir);
    var perFile := ParseAll(dir, names, parse).value;
    SortByDatePermutes(perFile, time);
    assert p in multiset(GetAllPosts(dir, parse, time).value);
    assert p in multiset(perFile);
    var i :| 0 <= i < |perFile| && perFile[i] == p;
    assert names[i] in names;
  }

  /** `getPostBySlug(slug)`: `null` exactly when `<slug>.mdx` does not exist
      (a dangling link counts as not existing); an error when it exists but
      cannot be read as a file; otherwise the post read from that file,
      carrying the requested slug. */
  function GetPostBySlug(dir: Directory, slug: string, parse: string -> Matter)
    : (r: Result<Option<BlogPost>, ReadError>)
    ensures r == Success(None) <==> !(dir.Present? && slug + Extension in dir.existing)
    ensures r.Failure? <==>
      dir.Present? && slug + Extension in dir.existing && slug + Extension !in dir.files
    ensures r.Success? && r.value.Some? ==>
      r.value.value.meta.slug == slug &&
      r.value.value == ToPost(parse(dir.files[slug + Extension]), slug)
  {
    var name := slug + Extension;
    if !(dir.Present? && name in dir.existing) then Success(None)
    else
      match ReadFile(dir, name)
      case Failure(e) => Failure(e)
      case Success(source) => Success(Some(ToPost(parse(source), slug)))
  }

  /** A dangling link `x.mdx` is listed but does not exist: the listing
      fails when it reads it, while the lookup of `x` reports no post. */
  lemma DanglingLinkDiffers(parse: string -> Matter, time: string -> int)
    ensures var dir: Directory := Present(["x.mdx"], {}, map[]);
      && GetAllPosts(dir, parse, time) == Failure(ReadError("x.mdx"))
      && GetPostBySlug(dir, "x", parse) == Success(None)
  {
    var dir: Directory := Present(["x.mdx"], {}, map[]);
    SlugRoundTrip("x");
    assert "x" + Extension == "x.mdx";
    assert GetPostFiles(dir) == ["x.mdx"];
  }

  /** Every slug that the listing yields resolves, by slug, to the very same
      post: both paths normalise a file in the same way. */
  lemma ListedSlugsResolve(dir: Directory, parse: string -> Matter, time: string -> int, p: BlogPost)
    requires GetAllPosts(dir, parse, time).Success?
    requires p in GetAllPosts(dir, parse, time).value
    ensures GetPostBySlug(dir, p.meta.slug, parse) == Success(Some(p))
  {
    ListedPostNamesItsFile(dir, parse, time, p);
  }

  /** Each listed slug names one of the post files: `slug + ".mdx"` is a
      listed `.mdx` entry. */
  lemma ListedSlugsAreFileNames(dir: Directory, parse: string -> Matter, time: string -> int)
    requires GetAllPosts(dir, parse, time).Success?
    ensures forall p :: p in GetAllPosts(dir, parse, time).value ==>
      p.meta.slug + Extension in GetPostFiles(dir)
  {
    forall p | p in GetAllPosts(dir, parse, time).value
      ensures p.meta.slug + Extension in GetPostFiles(dir)
    {
      ListedPostNamesItsFile(dir, parse, time, p);
      SlugRoundTrip(p.meta.slug);
    }
  }
}
