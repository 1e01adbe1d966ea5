/** The search box of the site's navigation bar (src/components/layout/Navbar.tsx):
    the list of blogs fetched once, the query typed, and the list shown,
    which an effect recomputes from the two whenever either changes. With no
    blogs, four built-in suggestions stand in for them. */
module Navbar {
  import opened Str

  datatype Blog = Blog(title: string, slug: string)

  const DefaultSuggestions: seq<Blog> := [
    Blog("Getting Started with React", "getting-started-react"),
    Blog("Next.js Best Practices", "nextjs-best-practices"),
    Blog("Supabase Tutorial", "supabase-tutorial"),
    Blog("TypeScript Tips", "typescript-tips")
  ]

  /** The list searched: the blogs, or the suggestions when there are none. */
  function Base(blogs: seq<Blog>): (r: seq<Blog>)
    ensures r != []
  {
    if |blogs| > 0 then blogs else DefaultSuggestions
  }

  /** The blogs whose lower-cased title contains `q`, in order. */
  function Matching(xs: seq<Blog>, q: string): (r: seq<Blog>)
    ensures |r| <= |xs|
  {
    if xs == [] then []
    else (if Contains(LowerStr(xs[0].title), q) then [xs[0]] else []) + Matching(xs[1..], q)
  }

  /** The filter effect (Navbar.tsx:64-75). Emptiness is judged on the
      trimmed query, but the untrimmed one is searched for. */
  function FilterView(blogs: seq<Blog>, query: string): seq<Blog> {
    if Trim(query) == "" then Base(blogs) else Matching(Base(blogs), LowerStr(query))
  }

  /** `a` is `b` with some entries left out, the rest in order. */
  ghost predicate Subsequence(a: seq<Blog>, b: seq<Blog>)
    decreases |b|
  {
    if a == [] then true
    else if b == [] then false
    else (a[0] == b[0] && Subsequence(a[1..], b[1..])) || Subsequence(a, b[1..])
  }

  /** Filtering keeps, in order, exactly the blogs whose title contains the query. */
  lemma {:induction false} MatchingSpec(xs: seq<Blog>, q: string)
    ensures Subsequence(Matching(xs, q), xs)
    ensures forall b :: b in Matching(xs, q) <==> b in xs && Contains(LowerStr(b.title), q)
    decreases |xs|
  {
    if xs != [] {
      MatchingSpec(xs[1..], q);
      var rest := Matching(xs[1..], q);
      if Contains(LowerStr(xs[0].title), q) {
        assert Matching(xs, q) == [xs[0]] + rest;
        assert ([xs[0]] + rest)[1..] == rest;
      } else {
        assert Matching(xs, q) == rest;
        if rest != [] {
          assert Subsequence(rest, xs[1..]);
        }
      }
    }
  }

  /** A blank query shows the whole base list; any other query shows, in
      order, exactly the entries of the base list whose title contains the
      lower-cased query, compared without regard to ASCII case. */
  lemma FilterViewSpec(blogs: seq<Blog>, query: string)
    ensures IsBlank(query) ==> FilterView(blogs, query) == (if blogs == [] then DefaultSuggestions else blogs)
    ensures !IsBlank(query) ==>
      && Subsequence(FilterView(blogs, query), Base(blogs))
      && forall b :: b in FilterView(blogs, query) <==>
           b in Base(blogs) && Contains(LowerStr(b.title), LowerStr(query))
  {
    MatchingSpec(Base(blogs), LowerStr(query));
  }

  /** The search is case-insensitive in the query: any casing of the same
      letters finds the same blogs. */
  lemma FilterViewIgnoresCase(blogs: seq<Blog>, q1: string, q2: string)
    requires LowerStr(q1) == LowerStr(q2)
    ensures FilterView(blogs, q1) == FilterView(blogs, q2)
  {
    BlankLower(q1);
    BlankLower(q2);
  }

  /** Lower-casing neither makes nor unmakes whitespace. */
  lemma BlankLower(q: string)
    ensures IsBlank(q) <==> IsBlank(LowerStr(q))
  {
    assert forall i :: 0 <= i < |q| ==> (IsSpace(q[i]) <==> IsSpace(LowerStr(q)[i]));
  }

  /** What the blog query answered. */
  datatype FetchResult = QueryError | Thrown | Data(rows: Option<seq<Blog>>)

  /** The component's state; `location` is the last path pushed to the router. */
  class Navbar {
    var blogs: seq<Blog>
    var filtered: seq<Blog>
    var query: string
    var searchBox: bool
    var location: Option<string>

    /** After every render the filter effect has run. */
    ghost predicate Valid()
      reads this
    {
      filtered == FilterView(blogs, query)
    }

    constructor ()
      ensures Valid() && blogs == [] && query == "" && !searchBox && location.None?
      ensures filtered == DefaultSuggestions
    {
      blogs, query, searchBox, location := [], "", false, None;
      filtered := DefaultSuggestions;
    }

    /** The filter effect (Navbar.tsx:64-75). */
    method Refilter()
      modifies this
      ensures Valid()
      ensures blogs == old(blogs) && query == old(query) && searchBox == old(searchBox) && location == old(location)
    {
      if Trim(query) == "" {
        filtered := if |blogs| > 0 then blogs else DefaultSuggestions;
      } else {
        var allBlogs := if |blogs| > 0 then blogs else DefaultSuggestions;
        filtered := Matching(allBlogs, LowerStr(query));
      }
    }

    /** `fetchBlogs` (Navbar.tsx:36-61) followed by the effect: on an error
        or exception the suggestions become the blog list, and a null result
        an empty one. */
    method FetchBlogs(result: FetchResult)
      modifies this
      ensures Valid()
      ensures result.Data? ==> blogs == (if result.rows.Some? then result.rows.value else [])
      ensures !result.Data? ==> blogs == DefaultSuggestions
      ensures query == old(query) && searchBox == old(searchBox) && location == old(location)
    {
      match result {
        case Data(rows) =>
          var data := if rows.Some? then rows.value else [];
          blogs := data;
          filtered := data;
        case _ =>
          blogs := DefaultSuggestions;
          filtered := DefaultSuggestions;
      }
      Refilter();
    }

    /** `handleSearchChange` (Navbar.tsx:120-122). */
    method SetQuery(value: string)
      modifies this
      ensures Valid() && query == value
      ensures blogs == old(blogs) && searchBox == old(searchBox) && location == old(location)
    {
      query := value;
      Refilter();
    }

    /** The search icon (Navbar.tsx:139-142). */
    method ToggleSearchBox()
      requires Valid()
      modifies this
      ensures Valid() && searchBox == !old(searchBox)
      ensures blogs == old(blogs) && query == old(query) && location == old(location)
    {
      searchBox := !searchBox;
    }

    /** `handleBlogSelect` (Navbar.tsx:113-117). */
    method SelectBlog(slug: string)
      modifies this
      ensures Valid() && location == Some("/blog/" + slug)
      ensures !searchBox && query == ""
      ensures blogs == old(blogs) && filtered == Base(blogs)
    {
      location := Some("/blog/" + slug);
      searchBox := false;
      query := "";
      Refilter();
    }

    /** A mouse press while the box is open (Navbar.tsx:90-110); the listener
        is only registered while the box is open. */
    method MouseDown(insideBox: bool)
      requires Valid()
      modifies this
      ensures Valid()
      ensures old(searchBox) && !insideBox ==> !searchBox && query == "" && filtered == Base(blogs)
      ensures !(old(searchBox) && !insideBox) ==> searchBox == old(searchBox) && query == old(query)
      ensures blogs == old(blogs) && location == old(location)
    {
      if searchBox && !insideBox {
        searchBox := false;
        query := "";
        Refilter();
      }
    }
  }
}
