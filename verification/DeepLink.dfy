/** Deep links of the mobile SDK: printing one and parsing it back.

    A Python dict is the list of its items in insertion order, with distinct keys. */
module DeepLink {
  import opened Wrappers

  const SCHEME := "consentchain://"

  datatype Param = Param(key: string, value: string)

  datatype Link = Link(path: string, params: seq<Param>, source: Option<string>)

  ghost predicate DistinctKeys(params: seq<Param>) {
    forall i, j :: 0 <= i < j < |params| ==> params[i].key != params[j].key
  }

  // ------------------------------------------------------ string operations

  /** The first position of `c`, or the length. */
  function Find(s: string, c: char): (i: nat)
    ensures i <= |s| && c !in s[..i]
    ensures i < |s| ==> s[i] == c
  {
    if s == "" || s[0] == c then 0 else 1 + Find(s[1..], c)
  }

  /** `s.split(c)`. */
  function Split(s: string, c: char): (parts: seq<string>)
    ensures |parts| >= 1
    decreases |s|
  {
    var i := Find(s, c);
    if i == |s| then [s] else [s[..i]] + Split(s[i + 1..], c)
  }

  /** `c.join(parts)`. */
  function Join(parts: seq<string>, c: char): string {
    if parts == [] then ""
    else if |parts| == 1 then parts[0]
    else parts[0] + [c] + Join(parts[1..], c)
  }

  /** `s.replace(SCHEME, "")`. */
  function WithoutScheme(s: string): string
    decreases |s|
  {
    if |s| < |SCHEME| then s
    else if s[..|SCHEME|] == SCHEME then WithoutScheme(s[|SCHEME|..])
    else [s[0]] + WithoutScheme(s[1..])
  }

  /** `params[key] = value`. */
  function PutParam(params: seq<Param>, key: string, value: string): seq<Param> {
    if params == [] then [Param(key, value)]
    else if params[0].key == key then [Param(key, value)] + params[1..]
    else [params[0]] + PutParam(params[1..], key, value)
  }

  // --------------------------------------------------- printing and parsing

  function Printed(p: Param): string {
    p.key + "=" + p.value
  }

  function PrintedAll(params: seq<Param>): (r: seq<string>)
    ensures |r| == |params|
  {
    seq(|params|, i requires 0 <= i < |params| => Printed(params[i]))
  }

  function GenerateDeepLink(path: string, params: seq<Param>, source: Option<string>): string {
    var url := SCHEME + path;
    var url' := if params != [] then url + "?" + Join(PrintedAll(params), '&') else url;
    if source.Some? && source.value != "" then
      if params != [] then url' + "&source=" + source.value else url' + "?source=" + source.value
    else url'
  }

  /** What one piece of the query does to the link read so far. */
  function Absorb(link: Link, piece: string): Link {
    if '=' !in piece then link
    else
      var i := Find(piece, '=');
      assert i < |piece| by { assert piece[..|piece|] == piece; }
      var key, value := piece[..i], piece[i + 1..];
      if key == "source" then link.(source := Some(value))
      else link.(params := PutParam(link.params, key, value))
  }

  function AbsorbAll(link: Link, pieces: seq<string>): Link
    decreases |pieces|
  {
    if pieces == [] then link else AbsorbAll(Absorb(link, pieces[0]), pieces[1..])
  }

  function ParsedBody(body: string): Link {
    var parts := Split(body, '?');
    var link := Link(parts[0], [], None);
    if |parts| > 1 then AbsorbAll(link, Split(parts[1], '&')) else link
  }

  function Parsed(url: string): Option<Link> {
    if SCHEME <= url then Some(ParsedBody(WithoutScheme(url))) else None
  }

  method ParseDeepLink(url: string) returns (r: Option<Link>)
    ensures r == Parsed(url)
  {
    if !(SCHEME <= url) {
      return None;
    }
    var parts := Split(WithoutScheme(url), '?');
    var path := parts[0];
    var params: seq<Param>, source: Option<string> := [], None;
    if |parts| > 1 {
      var pieces := Split(parts[1], '&');
      var k := 0;
      while k < |pieces|
        invariant 0 <= k <= |pieces|
        invariant AbsorbAll(Link(path, params, source), pieces[k..]) == AbsorbAll(Link(path, [], None), pieces)
      {
        assert pieces[k..][1..] == pieces[k + 1..];
        var pair := pieces[k];
        if '=' in pair {
          var i := Find(pair, '=');
          assert pair[..|pair|] == pair;
          var key, value := pair[..i], pair[i + 1..];
          if key == "source" {
            source := Some(value);
          } else {
            params := PutParam(params, key, value);
          }
        }
        k := k + 1;
      }
      assert pieces[k..] == [];
    }
    r := Some(Link(path, params, source));
  }

  // ------------------------------------------------------- split and join

  lemma {:induction false} FindAfter(a: string, c: char, b: string)
    requires c !in a
    ensures Find(a + [c] + b, c) == |a|
  {
    if a != "" {
      assert (a + [c] + b)[1..] == a[1..] + [c] + b;
      FindAfter(a[1..], c, b);
    }
  }

  lemma {:induction false} FindNothing(a: string, c: char)
    requires c !in a
    ensures Find(a, c) == |a|
  {
    if a != "" {
      FindNothing(a[1..], c);
    }
  }

  lemma SplitOnce(a: string, c: char, b: string)
    requires c !in a
    ensures Split(a + [c] + b, c) == [a] + Split(b, c)
  {
    FindAfter(a, c, b);
    assert (a + [c] + b)[..|a|] == a && (a + [c] + b)[|a| + 1..] == b;
  }

  lemma SplitNothing(a: string, c: char)
    requires c !in a
    ensures Split(a, c) == [a]
  {
    FindNothing(a, c);
  }

  /** Splitting undoes joining. */
  lemma {:induction false} SplitJoin(parts: seq<string>, c: char)
    requires parts != [] && forall p :: p in parts ==> c !in p
    ensures Split(Join(parts, c), c) == parts
    decreases |parts|
  {
    if |parts| == 1 {
      SplitNothing(parts[0], c);
    } else {
      SplitOnce(parts[0], c, Join(parts[1..], c));
      SplitJoin(parts[1..], c);
    }
  }

  lemma {:induction false} JoinAppend(parts: seq<string>, c: char, last: string)
    requires parts != []
    ensures Join(parts + [last], c) == Join(parts, c) + [c] + last
    decreases |parts|
  {
    if |parts| > 1 {
      assert (parts + [last])[1..] == parts[1..] + [last];
      JoinAppend(parts[1..], c, last);
    } else {
      assert (parts + [last])[1..] == [last];
    }
  }

  lemma {:induction false} JoinAvoids(parts: seq<string>, c: char, avoided: char)
    requires avoided != c && forall p :: p in parts ==> avoided !in p
    ensures avoided !in Join(parts, c)
    decreases |parts|
  {
    if |parts| > 1 {
      JoinAvoids(parts[1..], c, avoided);
    }
  }

  /** Pieces contain neither the separator nor anything new. */
  lemma {:induction false} SplitPieces(s: string, c: char)
    ensures forall p :: p in Split(s, c) ==> c !in p && forall x :: x in p ==> x in s
    decreases |s|
  {
    var i := Find(s, c);
    if i < |s| {
      SplitPieces(s[i + 1..], c);
      forall p | p in Split(s, c)
        ensures c !in p && forall x :: x in p ==> x in s
      {
        assert p == s[..i] || p in Split(s[i + 1..], c);
      }
    } else {
      assert s[..i] == s;
    }
  }

  // ---------------------------------------------- the body of a printed link

  function Pieces(params: seq<Param>, source: Option<string>): seq<string> {
    PrintedAll(params) + (if source.Some? && source.value != "" then ["source=" + source.value] else [])
  }

  function Body(path: string, params: seq<Param>, source: Option<string>): string {
    var pieces := Pieces(params, source);
    if pieces == [] then path else path + ['?'] + Join(pieces, '&')
  }

  lemma Assoc(a: string, b: string, c: string)
    ensures a + b + c == a + (b + c)
  {
  }

  lemma RegroupQuery(scheme: string, path: string, mark: string, query: string)
    ensures scheme + path + mark + query == scheme + (path + mark + query)
  {
    Assoc(scheme, path, mark);
    Assoc(scheme, path + mark, query);
  }

  lemma RegroupQueryAndSource(scheme: string, path: string, mark: string, query: string, and: string,
                              name: string, source: string)
    ensures scheme + path + mark + query + (and + name) + source
            == scheme + (path + mark + (query + and + (name + source)))
  {
    Assoc(scheme + path + mark + query, and + name, source);
    Assoc(and, name, source);
    RegroupQuery(scheme, path, mark, query);
    Assoc(scheme, path + mark + query, and + (name + source));
    Assoc(path + mark, query, and + (name + source));
    Assoc(query, and, name + source);
  }

  lemma GeneratedWithSource(path: string, params: seq<Param>, source: string)
    requires source != ""
    ensures GenerateDeepLink(path, params, Some(source)) == SCHEME + Body(path, params, Some(source))
  {
    var last, printed := "source=" + source, Join(PrintedAll(params), '&');
    if params == [] {
      assert Pieces(params, Some(source)) == [last];
      Assoc(SCHEME + path, "?", "source=" + source);
      assert "?source=" == "?" + "source=";
      Assoc("?", "source=", source);
      RegroupQuery(SCHEME, path, "?", last);
    } else {
      JoinAppend(PrintedAll(params), '&', last);
      assert "&source=" == "&" + "source=";
      RegroupQueryAndSource(SCHEME, path, "?", printed, "&", "source=", source);
    }
  }

  lemma GeneratedIsSchemeAndBody(path: string, params: seq<Param>, source: Option<string>)
    ensures GenerateDeepLink(path, params, source) == SCHEME + Body(path, params, source)
  {
    if source.Some? && source.value != "" {
      GeneratedWithSource(path, params, source.value);
    } else {
      assert Pieces(params, source) == PrintedAll(params);
      RegroupQuery(SCHEME, path, "?", Join(PrintedAll(params), '&'));
    }
  }

  // ------------------------------------------------- parts free of separators

  predicate CleanKey(key: string) {
    '=' !in key && '&' !in key && '?' !in key && key != "source"
  }

  predicate CleanValue(value: string) {
    '&' !in value && '?' !in value
  }

  ghost predicate Separable(path: string, params: seq<Param>, source: Option<string>) {
    && '?' !in path
    && (forall p :: p in params ==> CleanKey(p.key) && CleanValue(p.value))
    && (source.Some? ==> CleanValue(source.value))
  }

  lemma AbsorbPrinted(link: Link, p: Param)
    requires '=' !in p.key && p.key != "source"
    ensures Absorb(link, Printed(p)) == link.(params := PutParam(link.params, p.key, p.value))
  {
    var piece := Printed(p);
    assert piece == p.key + ['='] + p.value;
    FindAfter(p.key, '=', p.value);
    assert piece[|p.key|] == '=';
    assert piece[..|p.key|] == p.key && piece[|p.key| + 1..] == p.value;
  }

  lemma AbsorbSource(link: Link, source: string)
    ensures Absorb(link, "source=" + source) == link.(source := Some(source))
  {
    var piece := "source=" + source;
    assert piece == "source" + ['='] + source;
    FindAfter("source", '=', source);
    assert piece[6] == '=';
    assert piece[..6] == "source" && piece[7..] == source;
  }

  lemma {:induction false} PutFresh(params: seq<Param>, p: Param)
    requires forall q :: q in params ==> q.key != p.key
    ensures PutParam(params, p.key, p.value) == params + [p]
  {
    if params != [] {
      PutFresh(params[1..], p);
    }
  }

  /** Reading the printed parameters back, after some of them have been read. */
  lemma {:induction false} AbsorbPrintedAll(path: string, params: seq<Param>, k: nat, rest: seq<string>)
    requires k <= |params| && DistinctKeys(params)
    requires forall p :: p in params ==> CleanKey(p.key)
    ensures AbsorbAll(Link(path, params[..k], None), PrintedAll(params)[k..] + rest)
            == AbsorbAll(Link(path, params, None), rest)
    decreases |params| - k
  {
    if k == |params| {
      assert params[..k] == params && PrintedAll(params)[k..] + rest == rest;
    } else {
      var p, pieces := params[k], PrintedAll(params)[k..] + rest;
      assert pieces[0] == Printed(p) && pieces[1..] == PrintedAll(params)[k + 1..] + rest;
      assert p in params;
      AbsorbPrinted(Link(path, params[..k], None), p);
      PutFresh(params[..k], p);
      assert params[..k] + [p] == params[..k + 1];
      AbsorbPrintedAll(path, params, k + 1, rest);
    }
  }

  lemma PiecesAvoid(params: seq<Param>, source: Option<string>)
    requires Separable("", params, source)
    ensures forall p :: p in Pieces(params, source) ==> '&' !in p && '?' !in p
  {
    forall piece | piece in PrintedAll(params)
      ensures '&' !in piece && '?' !in piece
    {
      var i :| 0 <= i < |params| && piece == Printed(params[i]);
      assert params[i] in params;
    }
  }

  /** Parsing the body of separable parts returns them. */
  lemma ParsedBodyOfSeparable(path: string, params: seq<Param>, source: Option<string>)
    requires Separable(path, params, source) && DistinctKeys(params)
    ensures ParsedBody(Body(path, params, source))
            == Link(path, params, if source == Some("") then None else source)
  {
    var pieces := Pieces(params, source);
    var rest := if source.Some? && source.value != "" then ["source=" + source.value] else [];
    PiecesAvoid(params, source);
    if pieces == [] {
      SplitNothing(path, '?');
    } else {
      var query := Join(pieces, '&');
      JoinAvoids(pieces, '&', '?');
      SplitOnce(path, '?', query);
      SplitNothing(query, '?');
      SplitJoin(pieces, '&');
      assert pieces == PrintedAll(params)[0..] + rest && params[..0] == [];
      AbsorbPrintedAll(path, params, 0, rest);
      if rest != [] {
        AbsorbSource(Link(path, params, None), source.value);
        assert rest[1..] == [];
      }
    }
  }

  // ----------------------------------------------- occurrences of the scheme

  ghost predicate SchemeAt(s: string, i: nat) {
    i + |SCHEME| <= |s| && forall k :: 0 <= k < |SCHEME| ==> s[i + k] == SCHEME[k]
  }

  ghost predicate ContainsScheme(s: string) {
    exists i: nat :: SchemeAt(s, i)
  }

  lemma StartsWithScheme(s: string)
    ensures SchemeAt(s, 0) <==> |s| >= |SCHEME| && s[..|SCHEME|] == SCHEME
  {
    if |s| >= |SCHEME| && s[..|SCHEME|] == SCHEME {
      forall k | 0 <= k < |SCHEME|
        ensures s[0 + k] == SCHEME[k]
      {
        assert s[..|SCHEME|][k] == SCHEME[k];
      }
    }
  }

  lemma OccurrencesShift(s: string, i: nat)
    requires s != ""
    ensures SchemeAt(s[1..], i) <==> SchemeAt(s, i + 1)
  {
    if SchemeAt(s[1..], i) {
      forall k | 0 <= k < |SCHEME|
        ensures s[i + 1 + k] == SCHEME[k]
      {
        assert s[1..][i + k] == SCHEME[k];
      }
    }
    if SchemeAt(s, i + 1) {
      forall k | 0 <= k < |SCHEME|
        ensures s[1..][i + k] == SCHEME[k]
      {
        assert s[(i + 1) + k] == SCHEME[k];
      }
    }
  }

  lemma ContainsAtStartOrLater(s: string)
    requires s != ""
    ensures ContainsScheme(s) <==> SchemeAt(s, 0) || ContainsScheme(s[1..])
  {
    if i: nat :| SchemeAt(s, i) {
      if i > 0 {
        OccurrencesShift(s, i - 1);
      }
    }
    if i: nat :| SchemeAt(s[1..], i) {
      OccurrencesShift(s, i);
    }
  }

  /** Removal shortens exactly the strings that contain the scheme text, and leaves the others alone. */
  lemma {:induction false} RemovalShortens(s: string)
    ensures |WithoutScheme(s)| <= |s|
    ensures ContainsScheme(s) ==> |WithoutScheme(s)| < |s|
    ensures !ContainsScheme(s) ==> WithoutScheme(s) == s
    decreases |s|
  {
    if |s| >= |SCHEME| {
      StartsWithScheme(s);
      if s[..|SCHEME|] == SCHEME {
        RemovalShortens(s[|SCHEME|..]);
      } else {
        ContainsAtStartOrLater(s);
        RemovalShortens(s[1..]);
      }
    }
  }

  lemma LeadingSchemeRemoved(body: string)
    ensures WithoutScheme(SCHEME + body) == WithoutScheme(body)
  {
    assert (SCHEME + body)[..|SCHEME|] == SCHEME && (SCHEME + body)[|SCHEME|..] == body;
  }

  lemma NoOccurrenceAcross(s: string, at: nat, i: nat)
    requires at < |s| && s[at] !in SCHEME && i <= at < i + |SCHEME|
    ensures !SchemeAt(s, i)
  {
    assert SCHEME[at - i] in SCHEME && s[i + (at - i)] == s[at];
  }

  /** An occurrence cannot straddle a character that is not in the scheme text. */
  lemma OccurrenceOnOneSide(a: string, c: char, b: string)
    requires c !in SCHEME
    ensures ContainsScheme(a + [c] + b) <==> ContainsScheme(a) || ContainsScheme(b)
  {
    var s := a + [c] + b;
    if i: nat :| SchemeAt(a, i) {
      assert SchemeAt(s, i);
    }
    if i: nat :| SchemeAt(b, i) {
      OccurrenceInTail(a + [c], b, i);
    }
    if i: nat :| SchemeAt(s, i) {
      if i + |SCHEME| <= |a| {
        assert SchemeAt(a, i);
      } else if i > |a| {
        OccurrenceInTail(a + [c], b, i - |a| - 1);
      } else {
        NoOccurrenceAcross(s, |a|, i);
      }
    }
  }

  lemma OccurrenceInTail(a: string, b: string, i: nat)
    ensures SchemeAt(b, i) <==> SchemeAt(a + b, |a| + i)
  {
    assert forall k :: 0 <= k < |b| ==> (a + b)[|a| + k] == b[k];
    if SchemeAt(a + b, |a| + i) {
      forall k | 0 <= k < |SCHEME|
        ensures b[i + k] == SCHEME[k]
      {
        assert (a + b)[(|a| + i) + k] == SCHEME[k] && (a + b)[|a| + (i + k)] == b[i + k];
      }
    }
  }

  // ------------------------------------------------- exactly when it round-trips

  ghost predicate SchemeFree(path: string, params: seq<Param>, source: Option<string>) {
    && !ContainsScheme(path)
    && (forall p :: p in params ==> !ContainsScheme(p.key) && !ContainsScheme(p.value))
    && (source.Some? ==> !ContainsScheme(source.value))
  }

  lemma {:induction false} JoinSchemeFree(parts: seq<string>)
    ensures ContainsScheme(Join(parts, '&')) <==> exists p :: p in parts && ContainsScheme(p)
    decreases |parts|
  {
    if parts == [] {
      assert !SchemeAt("", 0);
    } else if |parts| == 1 {
      assert parts[0] in parts;
    } else {
      OccurrenceOnOneSide(parts[0], '&', Join(parts[1..], '&'));
      JoinSchemeFree(parts[1..]);
      assert forall p :: p in parts <==> p == parts[0] || p in parts[1..];
    }
  }

  lemma PrintedSchemeFree(p: Param)
    ensures ContainsScheme(Printed(p)) <==> ContainsScheme(p.key) || ContainsScheme(p.value)
  {
    OccurrenceOnOneSide(p.key, '=', p.value);
    assert Printed(p) == p.key + ['='] + p.value;
  }

  lemma SourceSchemeFree(source: string)
    ensures ContainsScheme("source=" + source) <==> ContainsScheme(source)
  {
    OccurrenceOnOneSide("source", '=', source);
    assert "source=" + source == "source" + ['='] + source;
  }

  /** The printed body contains the scheme text exactly if one of the parts does. */
  lemma BodySchemeFree(path: string, params: seq<Param>, source: Option<string>)
    requires source != Some("")
    ensures !ContainsScheme(Body(path, params, source)) <==> SchemeFree(path, params, source)
  {
    var pieces, printed := Pieces(params, source), PrintedAll(params);
    forall i | 0 <= i < |params|
      ensures printed[i] in pieces
      ensures ContainsScheme(printed[i]) <==> ContainsScheme(params[i].key) || ContainsScheme(params[i].value)
    {
      PrintedSchemeFree(params[i]);
    }
    if source.Some? {
      SourceSchemeFree(source.value);
      assert "source=" + source.value in pieces;
    }
    assert forall piece :: piece in pieces ==>
             (exists i :: 0 <= i < |params| && piece == printed[i])
             || (source.Some? && piece == "source=" + source.value);
    JoinSchemeFree(pieces);
    if pieces != [] {
      OccurrenceOnOneSide(path, '?', Join(pieces, '&'));
    }
  }

  /** How long a link is when printed, counting an empty source as printed too. */
  function ParamsLength(params: seq<Param>): nat {
    if params == [] then 0 else |params[0].key| + |params[0].value| + 2 + ParamsLength(params[1..])
  }

  function LinkLength(link: Link): nat {
    |link.path| + ParamsLength(link.params) + (if link.source.Some? then |link.source.value| + 8 else 0)
  }

  lemma {:induction false} PutParamLength(params: seq<Param>, key: string, value: string)
    ensures ParamsLength(PutParam(params, key, value)) <= ParamsLength(params) + |key| + |value| + 2
  {
    if params != [] && params[0].key != key {
      PutParamLength(params[1..], key, value);
    }
  }

  function PiecesLength(pieces: seq<string>): nat {
    if pieces == [] then 0 else |pieces[0]| + 1 + PiecesLength(pieces[1..])
  }

  lemma {:induction false} AbsorbAllLength(link: Link, pieces: seq<string>)
    ensures LinkLength(AbsorbAll(link, pieces)) <= LinkLength(link) + PiecesLength(pieces)
    decreases |pieces|
  {
    if pieces != [] {
      var i := Find(pieces[0], '=');
      if '=' in pieces[0] {
        assert pieces[0][..|pieces[0]|] == pieces[0];
        PutParamLength(link.params, pieces[0][..i], pieces[0][i + 1..]);
      }
      AbsorbAllLength(Absorb(link, pieces[0]), pieces[1..]);
    }
  }

  lemma {:induction false} SplitLength(s: string, c: char)
    ensures PiecesLength(Split(s, c)) == |s| + 1
    decreases |s|
  {
    var i := Find(s, c);
    if i < |s| {
      SplitLength(s[i + 1..], c);
    }
  }

  /** Parsing never yields a link longer than what was parsed. */
  lemma ParsedNotLonger(body: string)
    ensures LinkLength(ParsedBody(body)) <= |body|
  {
    var parts := Split(body, '?');
    SplitLength(body, '?');
    if |parts| > 1 {
      SplitLength(parts[1], '&');
      AbsorbAllLength(Link(parts[0], [], None), Split(parts[1], '&'));
    }
  }

  lemma {:induction false} PrintedLength(params: seq<Param>)
    requires params != []
    ensures |Join(PrintedAll(params), '&')| + 1 == ParamsLength(params)
    decreases |params|
  {
    assert PrintedAll(params)[1..] == PrintedAll(params[1..]);
    if |params| > 1 {
      PrintedLength(params[1..]);
    }
  }

  lemma BodyLength(path: string, params: seq<Param>, source: Option<string>)
    ensures |Body(path, params, source)|
            == LinkLength(Link(path, params, source)) - (if source == Some("") then 8 else 0)
  {
    var printed := PrintedAll(params);
    if params != [] {
      PrintedLength(params);
    }
    if source.Some? && source.value != "" {
      var last := "source=" + source.value;
      if params != [] {
        JoinAppend(printed, '&', last);
      } else {
        assert Pieces(params, source) == [last];
      }
    } else {
      assert Pieces(params, source) == printed;
    }
  }

  /** Parsed keys, values and sources contain no separator they are cut at. */
  lemma {:induction false} AbsorbAllSeparable(link: Link, pieces: seq<string>)
    requires Separable(link.path, link.params, link.source)
    requires forall p :: p in pieces ==> '&' !in p && '?' !in p
    ensures var r := AbsorbAll(link, pieces);
            r.path == link.path && Separable(r.path, r.params, r.source)
    decreases |pieces|
  {
    if pieces != [] {
      var piece := pieces[0];
      assert piece in pieces;
      if '=' in piece {
        var i := Find(piece, '=');
        assert piece[..|piece|] == piece;
        PutParamSeparable(link.params, piece[..i], piece[i + 1..]);
      }
      AbsorbAllSeparable(Absorb(link, piece), pieces[1..]);
    }
  }

  lemma {:induction false} PutParamSeparable(params: seq<Param>, key: string, value: string)
    ensures forall p :: p in PutParam(params, key, value) ==> p in params || p == Param(key, value)
  {
    if params != [] && params[0].key != key {
      PutParamSeparable(params[1..], key, value);
    }
  }

  lemma ParsedSeparable(body: string)
    ensures var r := ParsedBody(body); Separable(r.path, r.params, r.source)
  {
    var parts := Split(body, '?');
    SplitPieces(body, '?');
    if |parts| > 1 {
      assert parts[1] in parts;
      SplitPieces(parts[1], '&');
      AbsorbAllSeparable(Link(parts[0], [], None), Split(parts[1], '&'));
    }
  }

  /** The parts a caller may use: no separator where it would be cut, no key named source, no empty
      source, and no part containing the scheme text. */
  ghost predicate Clean(path: string, params: seq<Param>, source: Option<string>) {
    Separable(path, params, source) && source != Some("") && SchemeFree(path, params, source)
  }

  /** Parsing a generated link returns the path, the parameters in order and the source it was generated
      from if and only if the parts are clean. */
  lemma RoundTripsExactlyWhenClean(path: string, params: seq<Param>, source: Option<string>)
    requires DistinctKeys(params)
    ensures Parsed(GenerateDeepLink(path, params, source)) == Some(Link(path, params, source))
            <==> Clean(path, params, source)
  {
    var body, link := Body(path, params, source), Link(path, params, source);
    GeneratedIsSchemeAndBody(path, params, source);
    assert SCHEME <= SCHEME + body;
    LeadingSchemeRemoved(body);
    RemovalShortens(body);
    if Clean(path, params, source) {
      BodySchemeFree(path, params, source);
      ParsedBodyOfSeparable(path, params, source);
    }
    if ParsedBody(WithoutScheme(body)) == link {
      ParsedSeparable(WithoutScheme(body));
      ParsedNotLonger(WithoutScheme(body));
      BodyLength(path, params, source);
      BodySchemeFree(path, params, source);
    }
  }

  // ---------------------------------------------------- any query, by its pieces

  function KeyOf(piece: string): string {
    piece[..Find(piece, '=')]
  }

  /** A piece without '=' gives nothing. */
  predicate Gives(piece: string, key: string, value: string) {
    '=' in piece && KeyOf(piece) == key && piece == key + "=" + value
  }

  predicate Names(piece: string, key: string) {
    '=' in piece && KeyOf(piece) == key
  }

  /** The value is the one that the last piece with this key gives. */
  ghost predicate GivenLast(pieces: seq<string>, key: string, value: string) {
    exists k :: 0 <= k < |pieces| && Gives(pieces[k], key, value) && NotNamedFrom(pieces, k + 1, key)
  }

  predicate NotNamedFrom(pieces: seq<string>, k: nat, key: string) {
    forall m :: k <= m < |pieces| ==> !Names(pieces[m], key)
  }

  /** The keys other than "source", in the order in which they are first named. */
  function KeysInOrder(pieces: seq<string>): seq<string> {
    if pieces == [] then []
    else
      var before, last := KeysInOrder(pieces[..|pieces| - 1]), pieces[|pieces| - 1];
      if '=' in last && KeyOf(last) != "source" && KeyOf(last) !in before then before + [KeyOf(last)] else before
  }

  ghost predicate SourceIsTold(source: Option<string>, pieces: seq<string>) {
    match source
    case Some(value) => GivenLast(pieces, "source", value)
    case None => NotNamedFrom(pieces, 0, "source")
  }

  ghost predicate ParamsAreTold(params: seq<Param>, pieces: seq<string>) {
    Keys(params) == KeysInOrder(pieces) && forall p :: p in params ==> GivenLast(pieces, p.key, p.value)
  }

  function Keys(params: seq<Param>): (keys: seq<string>)
    ensures |keys| == |params| && forall i :: 0 <= i < |params| ==> keys[i] == params[i].key
  {
    if params == [] then [] else [params[0].key] + Keys(params[1..])
  }

  lemma KeysInFront(p: Param, rest: seq<Param>)
    ensures Keys([p] + rest) == [p.key] + Keys(rest)
  {
    assert ([p] + rest)[1..] == rest;
  }

  lemma {:induction false} PutParamKeys(params: seq<Param>, key: string, value: string)
    ensures Keys(PutParam(params, key, value)) == if key in Keys(params) then Keys(params) else Keys(params) + [key]
  {
    if params == [] {
      KeysInFront(Param(key, value), []);
    } else {
      var first, rest := params[0], params[1..];
      assert Keys(params) == [first.key] + Keys(rest);
      if first.key == key {
        KeysInFront(Param(key, value), rest);
      } else {
        PutParamKeys(rest, key, value);
        KeysInFront(first, PutParam(rest, key, value));
      }
    }
  }

  lemma DistinctInFront(p: Param, rest: seq<Param>)
    requires DistinctKeys(rest) && forall q :: q in rest ==> q.key != p.key
    ensures DistinctKeys([p] + rest)
  {
  }

  lemma {:induction false} PutParamContents(params: seq<Param>, key: string, value: string)
    requires DistinctKeys(params)
    ensures forall p :: p in PutParam(params, key, value) ==>
              p == Param(key, value) || (p in params && p.key != key)
    ensures DistinctKeys(PutParam(params, key, value))
  {
    if params != [] {
      var first, rest := params[0], params[1..];
      assert forall q :: q in rest ==> q.key != first.key;
      if first.key == key {
        DistinctInFront(Param(key, value), rest);
      } else {
        PutParamContents(rest, key, value);
        DistinctInFront(first, PutParam(rest, key, value));
      }
    }
  }

  lemma NotNamedByOneMore(pieces: seq<string>, piece: string, key: string)
    ensures NotNamedFrom(pieces + [piece], 0, key) <==> NotNamedFrom(pieces, 0, key) && !Names(piece, key)
  {
    var more := pieces + [piece];
    if NotNamedFrom(more, 0, key) {
      assert !Names(more[|pieces|], key);
      forall m | 0 <= m < |pieces|
        ensures !Names(pieces[m], key)
      {
        assert more[m] == pieces[m];
      }
    }
  }

  lemma {:induction false} KeysInOrderAreNamed(pieces: seq<string>, key: string)
    ensures key in KeysInOrder(pieces) <==> key != "source" && !NotNamedFrom(pieces, 0, key)
  {
    if pieces != [] {
      var before, last := pieces[..|pieces| - 1], pieces[|pieces| - 1];
      assert before + [last] == pieces;
      KeysInOrderAreNamed(before, key);
      NotNamedByOneMore(before, last, key);
    }
  }

  lemma GivenByNewPiece(pieces: seq<string>, piece: string)
    requires '=' in piece
    ensures GivenLast(pieces + [piece], KeyOf(piece), piece[|KeyOf(piece)| + 1..])
  {
    var i := Find(piece, '=');
    assert i < |piece| by { assert piece[..|piece|] == piece; }
    assert piece == piece[..i] + [piece[i]] + piece[i + 1..];
    assert Gives((pieces + [piece])[|pieces|], KeyOf(piece), piece[i + 1..]);
  }

  lemma StaysGiven(pieces: seq<string>, piece: string, key: string, value: string)
    requires GivenLast(pieces, key, value) && !Names(piece, key)
    ensures GivenLast(pieces + [piece], key, value)
  {
    var k :| 0 <= k < |pieces| && Gives(pieces[k], key, value) && NotNamedFrom(pieces, k + 1, key);
    assert (pieces + [piece])[k] == pieces[k] && NotNamedFrom(pieces + [piece], k + 1, key);
  }

  lemma AbsorbKeepsSource(link: Link, pieces: seq<string>, piece: string)
    requires SourceIsTold(link.source, pieces)
    ensures SourceIsTold(Absorb(link, piece).source, pieces + [piece])
  {
    NotNamedByOneMore(pieces, piece, "source");
    if Names(piece, "source") {
      GivenByNewPiece(pieces, piece);
    } else if link.source.Some? {
      StaysGiven(pieces, piece, "source", link.source.value);
    }
  }

  lemma StillParamsTold(params: seq<Param>, pieces: seq<string>, piece: string)
    requires ParamsAreTold(params, pieces) && ('=' in piece ==> KeyOf(piece) == "source")
    ensures ParamsAreTold(params, pieces + [piece])
  {
    assert (pieces + [piece])[..|pieces|] == pieces;
    KeysInOrderAreNamed(pieces, "source");
    forall p | p in params
      ensures GivenLast(pieces + [piece], p.key, p.value)
    {
      var i :| 0 <= i < |params| && params[i] == p;
      assert Keys(params)[i] == p.key;
      StaysGiven(pieces, piece, p.key, p.value);
    }
  }

  lemma PutKeepsParams(params: seq<Param>, pieces: seq<string>, piece: string)
    requires ParamsAreTold(params, pieces) && DistinctKeys(params) && '=' in piece && KeyOf(piece) != "source"
    ensures var params' := PutParam(params, KeyOf(piece), piece[|KeyOf(piece)| + 1..]);
            ParamsAreTold(params', pieces + [piece]) && DistinctKeys(params')
  {
    assert (pieces + [piece])[..|pieces|] == pieces;
    var key, value := KeyOf(piece), piece[|KeyOf(piece)| + 1..];
    PutParamKeys(params, key, value);
    PutParamContents(params, key, value);
    GivenByNewPiece(pieces, piece);
    forall p | p in PutParam(params, key, value) && p.key != key
      ensures GivenLast(pieces + [piece], p.key, p.value)
    {
      StaysGiven(pieces, piece, p.key, p.value);
    }
  }

  lemma AbsorbKeepsParams(link: Link, pieces: seq<string>, piece: string)
    requires ParamsAreTold(link.params, pieces) && DistinctKeys(link.params)
    ensures var params := Absorb(link, piece).params;
            ParamsAreTold(params, pieces + [piece]) && DistinctKeys(params)
  {
    if '=' in piece && KeyOf(piece) != "source" {
      PutKeepsParams(link.params, pieces, piece);
    } else {
      StillParamsTold(link.params, pieces, piece);
    }
  }

  lemma {:induction false} AbsorbAllLast(link: Link, pieces: seq<string>, last: string)
    ensures AbsorbAll(link, pieces + [last]) == Absorb(AbsorbAll(link, pieces), last)
    decreases |pieces|
  {
    if pieces != [] {
      assert (pieces + [last])[1..] == pieces[1..] + [last];
      AbsorbAllLast(Absorb(link, pieces[0]), pieces[1..], last);
    }
  }

  lemma {:induction false} AbsorbAllIsTold(path: string, pieces: seq<string>)
    ensures var link := AbsorbAll(Link(path, [], None), pieces);
            && link.path == path && SourceIsTold(link.source, pieces)
            && ParamsAreTold(link.params, pieces) && DistinctKeys(link.params)
    decreases |pieces|
  {
    if pieces != [] {
      var before, last := pieces[..|pieces| - 1], pieces[|pieces| - 1];
      var link := AbsorbAll(Link(path, [], None), before);
      AbsorbAllIsTold(path, before);
      AbsorbAllLast(Link(path, [], None), before, last);
      AbsorbKeepsSource(link, before, last);
      AbsorbKeepsParams(link, before, last);
      assert before + [last] == pieces;
    }
  }

  /** A text is parsed exactly if it starts with the scheme, and whatever its query is: a piece without '='
      gives nothing, of a key that is repeated the last value counts and stands at its first place, and "source"
      is no parameter. */
  lemma ParsedIsTold(url: string, key: string)
    ensures Parsed(url).Some? <==> "consentchain://" <= url
    ensures Parsed(url).Some? ==>
              var link, parts := Parsed(url).value, Split(WithoutScheme(url), '?');
              var pieces := if |parts| == 1 then [] else Split(parts[1], '&');
              && link.path == parts[0] && SourceIsTold(link.source, pieces)
              && ParamsAreTold(link.params, pieces) && DistinctKeys(link.params)
              && (key in Keys(link.params) <==> key != "source" && !NotNamedFrom(pieces, 0, key))
  {
    var parts := Split(WithoutScheme(url), '?');
    var pieces := if |parts| == 1 then [] else Split(parts[1], '&');
    AbsorbAllIsTold(parts[0], pieces);
    KeysInOrderAreNamed(pieces, key);
  }
}
