/** A model of the part of Go's net/url that the loader relies on: the URL
    record, its structural equality, IsAbs, and ResolveReference (reference
    resolution of section 5.2 of RFC 3986 as Go implements it, including its
    dot-segment walk). Parsing is not modelled here; see Locators.Platform. */
module Urls {

  /** The fields of url.URL that the loader reads or writes. Datatype equality
      is field-by-field, like Go's `*u == *v` on the struct. */
  datatype Url = Url(scheme: string, host: string, path: string, rawQuery: string, fragment: string)

  /** Go's `pkgurl.URL{}`. */
  const EmptyUrl := Url("", "", "", "", "")

  /** url.IsAbs: a URL is absolute when it has a scheme. */
  predicate IsAbs(u: Url) {
    u.scheme != ""
  }

  /** strings.LastIndex(s, "/"), -1 when there is no slash. */
  function LastSlash(s: string): (i: int)
    ensures -1 <= i < |s|
    ensures i >= 0 ==> s[i] == '/'
    ensures forall j :: i < j < |s| ==> s[j] != '/'
  {
    if s == [] then -1
    else if s[|s| - 1] == '/' then |s| - 1
    else LastSlash(s[..|s| - 1])
  }

  /** The merge step of resolvePath: the reference replaces the last segment
      of the base path unless it is empty or rooted. */
  function Merge(base: string, ref: string): (full: string)
    ensures ref != "" && ref[0] == '/' ==> full == ref
    ensures ref != "" && ref[0] != '/' ==> exists k :: 0 <= k <= |base| && full == base[..k] + ref
  {
    if ref == "" then base
    else if ref[0] != '/' then base[..LastSlash(base) + 1] + ref
    else ref
  }

  /** strings.Split(s, "/"): the slash-free elements of s, in order. */
  function Split(s: string): (elems: seq<string>)
    ensures |elems| >= 1
    decreases |s|
  {
    var i := IndexSlash(s);
    if i < 0 then [s]
    else [s[..i]] + Split(s[i + 1..])
  }

  /** strings.Join(elems, "/"). */
  function Join(elems: seq<string>): string
  {
    if elems == [] then ""
    else if |elems| == 1 then elems[0]
    else elems[0] + "/" + Join(elems[1..])
  }

  predicate NoSlash(s: string) {
    forall j :: 0 <= j < |s| ==> s[j] != '/'
  }

  /** strings.IndexByte(s, '/'), -1 when there is no slash. */
  function IndexSlash(s: string): (i: int)
    ensures -1 <= i < |s|
    ensures i >= 0 ==> s[i] == '/'
  {
    if s == [] then -1
    else if s[0] == '/' then 0
    else
      var i := IndexSlash(s[1..]);
      if i < 0 then -1 else i + 1
  }

  /** IndexSlash finds the first slash: there is none before it, and none at
      all when it reports -1. */
  lemma {:induction false} IndexSlashFirst(s: string)
    ensures var i := IndexSlash(s);
            (i >= 0 ==> NoSlash(s[..i])) && (i < 0 ==> NoSlash(s))
  {
    if s != [] && s[0] != '/' {
      IndexSlashFirst(s[1..]);
      var i := IndexSlash(s[1..]);
      if i >= 0 {
        assert s[..i + 1] == [s[0]] + s[1..][..i];
      } else {
        assert s == [s[0]] + s[1..];
      }
    }
  }

  /** The loop of Go's resolvePath over the elements of the merged path: `dst`
      is the output so far (it always begins with the slash written first) and
      `first` says that no separator is due before the next element. */
  function Walk(dst: string, first: bool, elems: seq<string>): (r: string)
    requires |dst| >= 1 && dst[0] == '/'
    ensures |r| >= 1 && r[0] == '/'
    decreases |elems|
  {
    if elems == [] then dst
    else
      var e := elems[0];
      if e == "." then Walk(dst, false, elems[1..])
      else if e == ".." then
        var str := dst[1..];
        var index := LastSlash(str);
        if index == -1 then Walk("/", true, elems[1..])
        else Walk("/" + str[..index], first, elems[1..])
      else Walk(dst + (if first then "" else "/") + e, false, elems[1..])
  }

  /** Go's resolvePath(base, ref): merge, then walk the elements removing dot
      segments, then drop a doubled leading slash. */
  function ResolvePath(base: string, ref: string): (r: string)
    ensures Merge(base, ref) == "" <==> r == ""
    ensures r != "" ==> r[0] == '/'
  {
    var full := Merge(base, ref);
    if full == "" then ""
    else
      var elems := Split(full);
      var last := elems[|elems| - 1];
      var dst := Walk("/", true, elems) + (if last == "." || last == ".." then "/" else "");
      if |dst| > 1 && dst[1] == '/' then dst[1..] else dst
  }

  /** url.ResolveReference restricted to the modelled fields. */
  function ResolveReference(base: Url, ref: Url): (r: Url)
    ensures r.scheme == (if ref.scheme == "" then base.scheme else ref.scheme)
    ensures ref.scheme == "" && ref.host == "" ==> r.host == base.host
    ensures ref.scheme == "" && ref.host == "" && ref.path != "" ==> r.rawQuery == ref.rawQuery
  {
    var scheme := if ref.scheme == "" then base.scheme else ref.scheme;
    if ref.scheme != "" || ref.host != "" then
      ref.(scheme := scheme, path := ResolvePath(ref.path, ""))
    else
      var keepBase := ref.path == "" && ref.rawQuery == "";
      Url(scheme,
          base.host,
          ResolvePath(base.path, ref.path),
          if keepBase then base.rawQuery else ref.rawQuery,
          if keepBase && ref.fragment == "" then base.fragment else ref.fragment)
  }

  /** Splitting at the first slash: the element before it, then the rest. */
  lemma {:induction false} SplitAtSlash(a: string, b: string)
    requires NoSlash(a)
    ensures Split(a + "/" + b) == [a] + Split(b)
  {
    var s := a + "/" + b;
    assert s[|a|] == '/';
    var i := IndexSlash(s);
    IndexSlashFirst(s);
    assert i == |a|;
    assert s[..i] == a;
    assert s[i + 1..] == b;
  }

  /** A slash-free string is a single element. */
  lemma SplitNoSlash(c: string)
    requires NoSlash(c)
    ensures Split(c) == [c]
  {
    assert IndexSlash(c) < 0;
  }

  /** The elements of a rooted path with three segments. */
  lemma {:induction false} SplitRooted3(a: string, b: string, c: string)
    requires NoSlash(a) && NoSlash(b) && NoSlash(c)
    ensures Split("/" + a + "/" + b + "/" + c) == ["", a, b, c]
  {
    var t := b + "/" + c;
    var u := a + "/" + t;
    assert "" + "/" + u == "/" + a + "/" + b + "/" + c;
    assert NoSlash("");
    calc {
      Split("" + "/" + u);
      { SplitAtSlash("", u); }
      [""] + Split(u);
      { SplitAtSlash(a, t); }
      [""] + ([a] + Split(t));
      { SplitAtSlash(b, c); SplitNoSlash(c); }
      ["", a, b, c];
    }
  }

  /** The elements of a split hold no slash. */
  lemma {:induction false} SplitElementsNoSlash(s: string)
    ensures forall k :: 0 <= k < |Split(s)| ==> NoSlash(Split(s)[k])
    decreases |s|
  {
    var i := IndexSlash(s);
    IndexSlashFirst(s);
    var elems := Split(s);
    if i >= 0 {
      var rest := Split(s[i + 1..]);
      SplitElementsNoSlash(s[i + 1..]);
      assert elems == [s[..i]] + rest;
      forall k | 0 <= k < |elems| ensures NoSlash(elems[k]) {
        if k > 0 {
          assert elems[k] == rest[k - 1];
        }
      }
    } else {
      assert elems == [s];
    }
  }

  /** A string is what comes before one of its slashes, the slash, and what
      comes after it. */
  lemma AroundSlash(s: string, i: int)
    requires 0 <= i < |s| && s[i] == '/'
    ensures s == s[..i] + "/" + s[i + 1..]
  {
  }

  /** Joining an element in front of a non-empty list puts a slash between. */
  lemma JoinCons(head: string, rest: seq<string>)
    requires rest != []
    ensures Join([head] + rest) == head + "/" + Join(rest)
  {
    assert ([head] + rest)[1..] == rest;
  }

  /** Joining the elements of a split gives the path back. */
  lemma {:induction false} JoinSplit(s: string)
    ensures Join(Split(s)) == s
    decreases |s|
  {
    var i := IndexSlash(s);
    if i >= 0 {
      var head, tail := s[..i], s[i + 1..];
      assert Split(s) == [head] + Split(tail);
      JoinSplit(tail);
      JoinCons(head, Split(tail));
      AroundSlash(s, i);
    } else {
      assert Split(s) == [s];
    }
  }

  /** No element is a dot segment. */
  ghost predicate Plain(elems: seq<string>) {
    forall k :: 0 <= k < |elems| ==> elems[k] != "." && elems[k] != ".."
  }

  /** The tail of a list without dot segments has none either. */
  lemma PlainTail(elems: seq<string>)
    requires elems != [] && Plain(elems)
    ensures Plain(elems[1..])
  {
    assert forall k :: 0 <= k < |elems| - 1 ==> elems[1..][k] == elems[k + 1];
  }

  /** An element that is not a dot segment is appended to the output. */
  lemma WalkStep(dst: string, first: bool, elems: seq<string>)
    requires |dst| >= 1 && dst[0] == '/'
    requires elems != [] && elems[0] != "." && elems[0] != ".."
    ensures Walk(dst, first, elems) == Walk(dst + (if first then "" else "/") + elems[0], false, elems[1..])
  {
  }

  /** Without dot segments the walk only re-joins the elements. */
  lemma {:induction false} WalkPlain(dst: string, elems: seq<string>)
    requires |dst| >= 1 && dst[0] == '/'
    requires elems != [] && Plain(elems)
    ensures Walk(dst, false, elems) == dst + "/" + Join(elems)
    decreases |elems|
  {
    var e := elems[0];
    WalkStep(dst, false, elems);
    if |elems| > 1 {
      PlainTail(elems);
      WalkPlain(dst + "/" + e, elems[1..]);
      assert (dst + "/" + e) + "/" + Join(elems[1..]) == dst + "/" + (e + "/" + Join(elems[1..]));
    }
  }

  /** Walking elements without dot segments from the root joins them
      behind the slash that the walk starts with. */
  lemma WalkPlainFromRoot(elems: seq<string>)
    requires elems != [] && Plain(elems)
    ensures Walk("/", true, elems) == "/" + Join(elems)
  {
    var e := elems[0];
    WalkStep("/", true, elems);
    assert "/" + "" + e == "/" + e;
    if |elems| > 1 {
      PlainTail(elems);
      WalkPlain("/" + e, elems[1..]);
      assert ("/" + e) + "/" + Join(elems[1..]) == "/" + (e + "/" + Join(elems[1..]));
    }
  }

  /** Walking the elements of a path without dot segments rebuilds it. */
  lemma WalkPlainPath(full: string)
    requires Plain(Split(full))
    ensures Walk("/", true, Split(full)) == "/" + full
  {
    WalkPlainFromRoot(Split(full));
    JoinSplit(full);
  }

  /** A rooted merged path without dot segments resolves to itself. */
  lemma {:induction false} ResolvePlainPath(base: string, ref: string)
    requires Merge(base, ref) != "" && Merge(base, ref)[0] == '/'
    requires Plain(Split(Merge(base, ref)))
    ensures ResolvePath(base, ref) == Merge(base, ref)
  {
    var full := Merge(base, ref);
    WalkPlainPath(full);
    var elems := Split(full);
    var last := elems[|elems| - 1];
    assert last != "." && last != "..";
  }

  /** Resolving against an absolute base always yields an absolute URL. */
  lemma ResolveAgainstAbsolute(base: Url, ref: Url)
    requires IsAbs(base)
    ensures IsAbs(ResolveReference(base, ref))
  {
  }

  /** A name relative to a directory lands in that directory. */
  lemma ResolvePathRelativeExample()
    ensures ResolvePath("/a/b/", "c.txt") == "/a/b/c.txt"
  {
    MergeRelativeExample();
    SplitRelativeExample();
    WalkRelativeExample();
    assert "//a/b/c.txt"[1..] == "/a/b/c.txt";
    ResolvePathByWalk("/a/b/", "c.txt", ["", "a", "b", "c.txt"], "//a/b/c.txt", "/a/b/c.txt");
  }

  lemma MergeRelativeExample()
    ensures Merge("/a/b/", "c.txt") == "/a/b/c.txt"
  {
    assert LastSlash("/a/b/") == 4;
  }

  lemma WalkRelativeExample()
    ensures Walk("/", true, ["", "a", "b", "c.txt"]) == "//a/b/c.txt"
  {
    var elems := ["", "a", "b", "c.txt"];
    assert Plain(elems);
    WalkPlainFromRoot(elems);
    assert Join(elems) == "/a/b/c.txt";
  }

  lemma SplitRelativeExample()
    ensures Split("/a/b/c.txt") == ["", "a", "b", "c.txt"]
  {
    SplitRooted3("a", "b", "c.txt");
    assert "/" + "a" + "/" + "b" + "/" + "c.txt" == "/a/b/c.txt";
  }

  /** A rooted name replaces the whole path. */
  lemma ResolvePathRootedExample()
    ensures ResolvePath("/a/b/", "/c.txt") == "/c.txt"
  {
    assert Merge("/a/b/", "/c.txt") == "/c.txt";
    assert NoSlash("") && NoSlash("c.txt");
    SplitAtSlash("", "c.txt");
    SplitNoSlash("c.txt");
    assert "" + "/" + "c.txt" == "/c.txt";
    ResolvePlainPath("/a/b/", "/c.txt");
  }

  /** The elements of the merged path of the parent-segment example. */
  lemma SplitParentExample()
    ensures Split("/a/b/../c.txt") == ["", "a", "b", "..", "c.txt"]
  {
    var t := ".." + "/" + "c.txt";
    var u := "b" + "/" + t;
    var v := "a" + "/" + u;
    assert "" + "/" + v == "/a/b/../c.txt";
    assert NoSlash("") && NoSlash("a") && NoSlash("b") && NoSlash("..") && NoSlash("c.txt");
    calc {
      Split("" + "/" + v);
      { SplitAtSlash("", v); }
      [""] + Split(v);
      { SplitAtSlash("a", u); }
      [""] + ([ "a"] + Split(u));
      { SplitAtSlash("b", t); }
      [""] + ([ "a"] + (["b"] + Split(t)));
      { SplitAtSlash("..", "c.txt"); SplitNoSlash("c.txt"); }
      ["", "a", "b", "..", "c.txt"];
    }
  }

  /** The walk of the parent-segment example: ".." drops "b". */
  lemma WalkParentExample()
    ensures Walk("/", true, ["", "a", "b", "..", "c.txt"]) == "//a/c.txt"
  {
    assert |"."| == 1 && |".."| == 2 && |"c.txt"| == 5;
    assert "/" + "" + "" == "/";
    assert Walk("/", true, ["", "a", "b", "..", "c.txt"]) == Walk("/", false, ["a", "b", "..", "c.txt"]);
    assert "/" + "/" + "a" == "//a";
    assert Walk("/", false, ["a", "b", "..", "c.txt"]) == Walk("//a", false, ["b", "..", "c.txt"]);
    assert "//a" + "/" + "b" == "//a/b";
    assert Walk("//a", false, ["b", "..", "c.txt"]) == Walk("//a/b", false, ["..", "c.txt"]);
    assert LastSlash("/a/b") == 2;
    assert "/" + "//a/b"[1..][..2] == "//a";
    assert Walk("//a/b", false, ["..", "c.txt"]) == Walk("//a", false, ["c.txt"]);
    assert "//a" + "/" + "c.txt" == "//a/c.txt";
    assert Walk("//a", false, ["c.txt"]) == Walk("//a/c.txt", false, []);
  }

  /** ResolvePath in terms of a known split and walk of the merged path. */
  lemma ResolvePathByWalk(base: string, ref: string, elems: seq<string>, walked: string, resolved: string)
    requires Merge(base, ref) != "" && Split(Merge(base, ref)) == elems
    requires Walk("/", true, elems) == walked
    requires elems[|elems| - 1] != "." && elems[|elems| - 1] != ".."
    requires resolved == if |walked| > 1 && walked[1] == '/' then walked[1..] else walked
    ensures ResolvePath(base, ref) == resolved
  {
    assert walked + "" == walked;
  }

  lemma MergeParentExample()
    ensures Merge("/a/b/", "../c.txt") == "/a/b/../c.txt"
  {
    assert LastSlash("/a/b/") == 4;
  }

  /** A parent segment removes the last directory. */
  lemma ResolvePathParentExample()
    ensures ResolvePath("/a/b/", "../c.txt") == "/a/c.txt"
  {
    MergeParentExample();
    SplitParentExample();
    WalkParentExample();
    assert |"c.txt"| == 5;
    assert "//a/c.txt"[1..] == "/a/c.txt";
    ResolvePathByWalk("/a/b/", "../c.txt", ["", "a", "b", "..", "c.txt"], "//a/c.txt", "/a/c.txt");
  }

  /** Against `file:///a/b/`, a relative name lands in the base directory
      and a rooted one replaces the whole path. */
  lemma ResolveExamples()
    ensures ResolveReference(Url("file", "", "/a/b/", "", ""), Url("", "", "c.txt", "", ""))
         == Url("file", "", "/a/b/c.txt", "", "")
    ensures ResolveReference(Url("file", "", "/a/b/", "", ""), Url("", "", "/c.txt", "", ""))
         == Url("file", "", "/c.txt", "", "")
  {
    ResolvePathRelativeExample();
    ResolvePathRootedExample();
  }
}
