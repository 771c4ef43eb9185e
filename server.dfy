/**
  The pure request logic of server.js: reading the bearer token, answering
  /api/stream with the headers of a whole or a partial response, normalising the
  isShort form field, and building the SQL statement and parameters of GET /api/videos.
 */
module Server {
  import opened Js

  /** The avatar every user and channel gets until one is uploaded. */
  const PlaceholderAvatar := "/assets/avatar-placeholder.svg"

  // ---------------------------------------------------------------------------
  // Bearer token

  /** The scheme prefix of an Authorization header: apiFetch writes it and the middleware strips it. */
  const BearerPrefix := "Bearer "

  /** The session token carried by an Authorization header: the header without a leading "Bearer ", or the whole header. */
  function ExtractToken(header: string): (token: string)
    ensures BearerPrefix <= header ==> BearerPrefix + token == header
    ensures !(BearerPrefix <= header) ==> token == header
    ensures |token| <= |header|
  {
    if BearerPrefix <= header then header[|BearerPrefix|..] else header
  }

  /** A header built as "Bearer " + t gives back exactly t, whatever t is (a second "Bearer " is kept). */
  lemma ExtractBearer(t: string)
    ensures ExtractToken(BearerPrefix + t) == t
  {
    assert BearerPrefix <= BearerPrefix + t;
    assert (BearerPrefix + t)[|BearerPrefix|..] == t;
  }

  // ---------------------------------------------------------------------------
  // GET /api/stream/:filename

  /** The four header names the stream handler writes. */
  datatype StreamHeader = ContentRange | AcceptRanges | ContentLength | ContentType

  const VideoType := "video/mp4"

  /**
    What the stream handler answers, before the bytes are piped: 404 with no
    headers, the whole file with 200, 206 with the byte positions read from the
    Range header, or 500 when fs.createReadStream refuses those positions: it
    throws before any header is written, and the exception reaches the error
    handler at the end of server.js.
   */
  datatype StreamReply =
    | NotFound
    | Whole(fileSize: nat)
    | Partial(start: nat, end: nat, fileSize: nat)
    | StreamFailed
  {
    function Status(): int {
      match this
      case NotFound => 404
      case Whole(_) => 200
      case Partial(_, _, _) => 206
      case StreamFailed => 500
    }

    /** The Content-Length value: the file size, or `(end - start) + 1` for a range. */
    function Length(): int
      requires Whole? || Partial?
    {
      if Whole? then fileSize else end - start + 1
    }

    /** The headers written with res.writeHead; a 404 or a 500 writes none of them. */
    function Headers(): (h: map<StreamHeader, string>)
      ensures NotFound? || StreamFailed? ==> h == map[]
      ensures Whole? ==> h.Keys == {ContentLength, ContentType} && h[ContentType] == VideoType
      ensures Partial? ==> h.Keys == {ContentRange, AcceptRanges, ContentLength, ContentType}
      ensures Partial? ==> h[AcceptRanges] == "bytes" && h[ContentType] == VideoType
    {
      match this
      case Whole(size) =>
        map[ContentLength := IntText(size), ContentType := VideoType]
      case Partial(start, end, size) =>
        map[ContentRange := "bytes " + IntText(start) + "-" + IntText(end) + "/" + IntText(size),
            AcceptRanges := "bytes",
            ContentLength := IntText(Length()),
            ContentType := VideoType]
      case _ => map[]
    }
  }

  /** The unit prefix of a Range header value. */
  const RangeUnit := "bytes="

  /**
    The first and last byte positions read from a Range header: the first "bytes="
    is removed, the rest is split on '-', the first part is parsed as the start, and
    the second, when present and not empty, as the end; otherwise the end is the
    last byte of the file. Nothing past the second part is looked at. Neither part
    holds a '-', so a position that is a number is never negative, except the
    default end of an empty file.
   */
  function RangeBounds(range: string, fileSize: nat): (bounds: (Num, Num))
    ensures bounds.0.NaN? || bounds.0.v >= 0
    ensures bounds.1.NaN? || bounds.1.v >= 0 || bounds.1.v == fileSize - 1
  {
    var parts := Split(ReplaceFirst(range, RangeUnit, ""), '-');
    var start := ParseInt(parts[0]);
    var end := if |parts| > 1 && parts[1] != "" then ParseInt(parts[1]) else Finite(fileSize - 1);
    (start, end)
  }

  /** The positions of a header that starts with the unit come from what follows it. */
  lemma RangeBoundsAfterUnit(spec: string, size: nat)
    ensures var parts := Split(spec, '-');
      RangeBounds(RangeUnit + spec, size) ==
        (ParseInt(parts[0]), if |parts| > 1 && parts[1] != "" then ParseInt(parts[1]) else Finite(size - 1))
  {
    ReplaceFirstAtStart(RangeUnit, spec, "");
    assert "" + spec == spec;
  }

  /**
    Whether fs.createReadStream accepts the positions: both are numbers, neither
    is negative, and the start is not past the end.
   */
  predicate Readable(bounds: (Num, Num))
    ensures Readable(bounds) ==> bounds.1.Finite? && bounds.1.v >= 0
    ensures Readable(bounds) ==> bounds.0.Finite? && bounds.1.Finite? && bounds.1.v - bounds.0.v + 1 >= 1
    ensures bounds.0.NaN? || bounds.1.NaN? ==> !Readable(bounds)
  {
    bounds.0.Finite? && bounds.1.Finite? && 0 <= bounds.0.v <= bounds.1.v
  }

  /** The reply to a stream request for a file of the given size (None: no such file) and an optional Range header. */
  function Stream(fileSize: Option<nat>, range: Option<string>): (r: StreamReply)
    ensures r.NotFound? <==> fileSize.None?
    ensures r.Whole? <==> fileSize.Some? && !Truthy(range)
    ensures r.Partial? <==> fileSize.Some? && Truthy(range) && Readable(RangeBounds(range.value, fileSize.value))
    ensures r.StreamFailed? <==> fileSize.Some? && Truthy(range) && !Readable(RangeBounds(range.value, fileSize.value))
    ensures r.Whole? || r.Partial? ==> r.fileSize == fileSize.value
    ensures r.Partial? ==> r.start <= r.end && RangeBounds(range.value, r.fileSize) == (Finite(r.start), Finite(r.end))
  {
    match fileSize
    case None => NotFound
    case Some(size) =>
      if Truthy(range) then
        var bounds := RangeBounds(range.value, size);
        if Readable(bounds) then Partial(bounds.0.v, bounds.1.v, size) else StreamFailed
      else
        Whole(size)
  }

  /** Without a Range header the whole file is announced with 200, and its Content-Length reads back as the file size. */
  lemma WholeFile(size: nat, range: Option<string>)
    requires !Truthy(range)
    ensures Stream(Some(size), range).Status() == 200
    ensures ParseInt(Stream(Some(size), range).Headers()[ContentLength]) == Finite(size)
  {
    ParseIntText(size);
  }

  /** "bytes=S-E" is read as the positions S and E. */
  lemma ClosedRangeBounds(s: nat, e: nat, size: nat)
    ensures RangeBounds(RangeUnit + NatText(s) + "-" + NatText(e), size) == (Finite(s), Finite(e))
  {
    var spec := NatText(s) + ['-'] + NatText(e);
    assert RangeUnit + NatText(s) + "-" + NatText(e) == RangeUnit + spec;
    RangeBoundsAfterUnit(spec, size);
    NatTextHasNoSeparators(s);
    NatTextHasNoSeparators(e);
    SplitAtFirst(NatText(s), '-', NatText(e));
    SplitWithoutSeparator(NatText(e), '-');
    ParseNatText(s);
    ParseNatText(e);
  }

  /**
    The values a partial reply writes: Content-Range is "bytes S-E/size" in
    decimal, and Content-Length reads back as the number of bytes from S to E.
   */
  lemma PartialHeaderValues(s: nat, e: nat, size: nat)
    ensures Partial(s, e, size).Headers()[ContentRange] == "bytes " + NatText(s) + "-" + NatText(e) + "/" + NatText(size)
    ensures ParseInt(Partial(s, e, size).Headers()[ContentLength]) == Finite(e - s + 1)
  {
    assert IntText(s) == NatText(s) && IntText(e) == NatText(e) && IntText(size) == NatText(size);
    assert Partial(s, e, size).Length() == e - s + 1;
    ParseIntText(e - s + 1);
  }

  /**
    "bytes=S-E" with S <= E gives 206 for bytes S to E of the file, with a
    Content-Length that reads back as E-S+1; with S > E the read stream refuses
    the positions and the reply is 500.
   */
  lemma ClosedRange(s: nat, e: nat, size: nat)
    ensures s <= e ==> Stream(Some(size), Some(RangeUnit + NatText(s) + "-" + NatText(e))) == Partial(s, e, size)
    ensures s <= e ==> ParseInt(Partial(s, e, size).Headers()[ContentLength]) == Finite(e - s + 1)
    ensures s <= e ==>
      Partial(s, e, size).Headers()[ContentRange] == "bytes " + NatText(s) + "-" + NatText(e) + "/" + NatText(size)
    ensures s > e ==> Stream(Some(size), Some(RangeUnit + NatText(s) + "-" + NatText(e))) == StreamFailed
  {
    ClosedRangeReply(s, e, size);
    PartialHeaderValues(s, e, size);
  }

  /** The reply to "bytes=S-E": readable exactly when S <= E. */
  lemma ClosedRangeReply(s: nat, e: nat, size: nat)
    ensures Stream(Some(size), Some(RangeUnit + NatText(s) + "-" + NatText(e)))
      == if s <= e then Partial(s, e, size) else StreamFailed
  {
    var range := RangeUnit + NatText(s) + "-" + NatText(e);
    ClosedRangeBounds(s, e, size);
    assert Truthy(Some(range)) by { assert range[0] == 'b'; }
  }

  /** "bytes=S-" is read as the position S and the last byte of the file. */
  lemma OpenRangeBounds(s: nat, size: nat)
    ensures RangeBounds(RangeUnit + NatText(s) + "-", size) == (Finite(s), Finite(size - 1))
  {
    var spec := NatText(s) + ['-'] + "";
    assert RangeUnit + NatText(s) + "-" == RangeUnit + spec;
    RangeBoundsAfterUnit(spec, size);
    NatTextHasNoSeparators(s);
    SplitAtFirst(NatText(s), '-', "");
    SplitWithoutSeparator("", '-');
    ParseNatText(s);
  }

  /**
    "bytes=S-" reads from S up to the last byte, with a Content-Length of size-S,
    when S is inside the file; from S at or past the end (and so for any such range
    on an empty file) the end comes before the start and the reply is 500.
   */
  lemma OpenRange(s: nat, size: nat)
    ensures s < size ==> Stream(Some(size), Some(RangeUnit + NatText(s) + "-")) == Partial(s, size - 1, size)
    ensures s < size ==> ParseInt(Partial(s, size - 1, size).Headers()[ContentLength]) == Finite(size - s)
    ensures s < size ==>
      Partial(s, size - 1, size).Headers()[ContentRange] == "bytes " + NatText(s) + "-" + NatText(size - 1) + "/" + NatText(size)
    ensures s >= size ==> Stream(Some(size), Some(RangeUnit + NatText(s) + "-")) == StreamFailed
  {
    OpenRangeReply(s, size);
    if s < size {
      PartialHeaderValues(s, size - 1, size);
    }
  }

  /** The reply to "bytes=S-": readable exactly when S is a position inside the file. */
  lemma OpenRangeReply(s: nat, size: nat)
    ensures Stream(Some(size), Some(RangeUnit + NatText(s) + "-"))
      == if s < size then Partial(s, size - 1, size) else StreamFailed
  {
    var range := RangeUnit + NatText(s) + "-";
    OpenRangeBounds(s, size);
    assert Truthy(Some(range)) by { assert range[0] == 'b'; }
  }

  /** "bytes=-N" is read as a NaN start and the position N. */
  lemma SuffixRangeBounds(n: nat, size: nat)
    ensures RangeBounds(RangeUnit + "-" + NatText(n), size) == (NaN, Finite(n))
  {
    var spec := "" + ['-'] + NatText(n);
    assert RangeUnit + "-" + NatText(n) == RangeUnit + spec;
    RangeBoundsAfterUnit(spec, size);
    NatTextHasNoSeparators(n);
    SplitAtFirst("", '-', NatText(n));
    SplitWithoutSeparator(NatText(n), '-');
    ParseIntEmpty();
    ParseNatText(n);
  }

  /** A suffix range "bytes=-N" is not understood: its NaN start makes the read stream throw, and the reply is 500. */
  lemma SuffixRangeFails(n: nat, size: nat)
    ensures Stream(Some(size), Some(RangeUnit + "-" + NatText(n))) == StreamFailed
  {
    SuffixRangeBounds(n, size);
  }

  // ---------------------------------------------------------------------------
  // isShort normalisation

  /** A multipart or JSON form value: absent, a string, or a boolean. */
  datatype FormValue = Missing | Text(s: string) | Flag(b: bool)

  /** The isShort column written by POST /api/videos: 1 for 'true', 'on' or true, else 0. */
  function UploadIsShort(v: FormValue): (flag: int)
    ensures flag == 0 || flag == 1
    ensures flag == 1 <==> v == Text("true") || v == Text("on") || v == Flag(true)
  {
    if v == Text("true") || v == Text("on") || v == Flag(true) then 1 else 0
  }

  /** The parameter GET /api/videos binds for an isShort query value: 1 only for 'true'. */
  function ListingIsShort(v: string): (flag: int)
    ensures flag == 0 || flag == 1
    ensures flag == 1 <==> v == "true"
  {
    if v == "true" then 1 else 0
  }

  /** A listing that selects shorts finds every upload marked 'true', but one marked 'on' is listed as a regular video. */
  lemma ShortFlagsAgree(v: string)
    ensures ListingIsShort(v) == 1 ==> UploadIsShort(Text(v)) == 1
    ensures v == "on" ==> UploadIsShort(Text(v)) == 1 && ListingIsShort(v) == 0
  {
  }

  // ---------------------------------------------------------------------------
  // GET /api/videos

  /** The query string of GET /api/videos: isShort is taken whenever present, channelId and search only when non-empty. */
  datatype VideoQuery = VideoQuery(isShort: Option<string>, channelId: Option<string>, search: Option<string>)

  /** A value bound to a placeholder. */
  datatype SqlParam = IntParam(i: int) | TextParam(s: string)

  /**
    SQL text as the handler writes it, cut at its placeholders: literal SQL (which
    holds no '?') and the '?' markers that the bound parameters fill in order.
   */
  datatype SqlPiece = Sql(text: string) | Hole
  type Statement = seq<SqlPiece>

  /** The number of '?' placeholders in a statement. */
  function Holes(q: Statement): nat
  {
    if q == [] then 0 else (if q[0].Hole? then 1 else 0) + Holes(q[1..])
  }

  lemma {:induction false} HolesAppend(a: Statement, b: Statement)
    ensures Holes(a + b) == Holes(a) + Holes(b)
    decreases |a|
  {
    if a == [] {
      assert a + b == b;
    } else {
      assert (a + b)[1..] == a[1..] + b;
      HolesAppend(a[1..], b);
    }
  }

  const ListSelect: Statement := [Sql("SELECT v.*, c.channelName, c.channelTag, c.avatarPath as channelAvatar, c.ownerUserId, c.id as channelId FROM videos v JOIN channels c ON v.ownerChannelId = c.id")]
  const WhereKeyword: Statement := [Sql(" WHERE ")]
  const AndKeyword: Statement := [Sql(" AND ")]
  const ListOrder: Statement := [Sql(" ORDER BY v.createdAt DESC")]
  const ShortCondition: Statement := [Sql("v.isShort = "), Hole]
  const ChannelCondition: Statement := [Sql("v.ownerChannelId = "), Hole]
  const SearchCondition: Statement := [Sql("(v.title LIKE "), Hole, Sql(" OR c.channelName LIKE "), Hole, Sql(")")]

  /** `conds.join(' AND ')` */
  function JoinConditions(conds: seq<Statement>): Statement
  {
    if conds == [] then []
    else if |conds| == 1 then conds[0]
    else conds[0] + AndKeyword + JoinConditions(conds[1..])
  }

  /** One condition of the WHERE clause, with what it binds. */
  datatype Filter = ShortFilter(flag: int) | ChannelFilter(id: string) | SearchFilter(pattern: string)

  /** The filters a query asks for, in the fixed order isShort, channelId, search. */
  function ActiveFilters(q: VideoQuery): (fs: seq<Filter>)
    ensures |fs| <= 3
    ensures fs == [] <==> q.isShort.None? && !Truthy(q.channelId) && !Truthy(q.search)
  {
    (if q.isShort.Some? then [ShortFilter(ListingIsShort(q.isShort.value))] else [])
    + (if Truthy(q.channelId) then [ChannelFilter(q.channelId.value)] else [])
    + (if Truthy(q.search) then [SearchFilter("%" + q.search.value + "%")] else [])
  }

  function Condition(f: Filter): Statement
  {
    match f
    case ShortFilter(_) => ShortCondition
    case ChannelFilter(_) => ChannelCondition
    case SearchFilter(_) => SearchCondition
  }

  /** What a filter binds: the search pattern is bound twice, once per LIKE. */
  function FilterParams(f: Filter): (ps: seq<SqlParam>)
    ensures |ps| == (if f.SearchFilter? then 2 else 1)
  {
    match f
    case ShortFilter(flag) => [IntParam(flag)]
    case ChannelFilter(id) => [TextParam(id)]
    case SearchFilter(p) => [TextParam(p), TextParam(p)]
  }

  function Conditions(fs: seq<Filter>): (conds: seq<Statement>)
    ensures |conds| == |fs|
    ensures forall k :: 0 <= k < |fs| ==> conds[k] == Condition(fs[k])
  {
    if fs == [] then [] else [Condition(fs[0])] + Conditions(fs[1..])
  }

  function ParamsOf(fs: seq<Filter>): seq<SqlParam>
  {
    if fs == [] then [] else FilterParams(fs[0]) + ParamsOf(fs[1..])
  }

  /** The WHERE clause for a list of filters: nothing at all when there is no filter. */
  function WhereClause(fs: seq<Filter>): Statement
  {
    if fs == [] then [] else WhereKeyword + JoinConditions(Conditions(fs))
  }

  /** The statement for a list of filters. */
  function ListStatement(fs: seq<Filter>): Statement
  {
    ListSelect + WhereClause(fs) + ListOrder
  }

  /** Each condition has one placeholder per parameter its filter binds. */
  lemma ConditionHoles(f: Filter)
    ensures Holes(Condition(f)) == |FilterParams(f)|
  {
    var c := Condition(f);
    if f.SearchFilter? {
      assert Holes(c[4..]) == 0;
      assert Holes(c[3..]) == 1;
      assert Holes(c[2..]) == 1;
      assert Holes(c[1..]) == 2;
    } else {
      assert Holes(c[1..]) == 1;
    }
  }

  /** The joined conditions have exactly one placeholder per bound parameter. */
  lemma {:induction false} JoinedHoles(fs: seq<Filter>)
    ensures Holes(JoinConditions(Conditions(fs))) == |ParamsOf(fs)|
    decreases |fs|
  {
    if fs != [] {
      ConditionHoles(fs[0]);
    }
    if |fs| == 1 {
      assert ParamsOf(fs) == FilterParams(fs[0]) + [];
    } else if |fs| > 1 {
      JoinedHoles(fs[1..]);
      assert Conditions(fs)[1..] == Conditions(fs[1..]);
      HolesAppend(Condition(fs[0]), AndKeyword);
      HolesAppend(Condition(fs[0]) + AndKeyword, JoinConditions(Conditions(fs[1..])));
    }
  }

  /** The statement has exactly one placeholder per bound parameter, for every combination of filters. */
  lemma HolesMatchParams(fs: seq<Filter>)
    ensures Holes(ListStatement(fs)) == |ParamsOf(fs)|
  {
    HolesAppend(ListSelect, WhereClause(fs));
    HolesAppend(ListSelect + WhereClause(fs), ListOrder);
    if fs != [] {
      HolesAppend(WhereKeyword, JoinConditions(Conditions(fs)));
      JoinedHoles(fs);
    }
  }

  /** Pushing one more filter appends its condition. */
  lemma {:induction false} ConditionsSnoc(fs: seq<Filter>, f: Filter)
    ensures Conditions(fs + [f]) == Conditions(fs) + [Condition(f)]
    decreases |fs|
  {
    if fs == [] {
      assert fs + [f] == [f];
    } else {
      assert (fs + [f])[1..] == fs[1..] + [f];
      ConditionsSnoc(fs[1..], f);
    }
  }

  /** Pushing one more filter appends its parameters. */
  lemma {:induction false} ParamsSnoc(fs: seq<Filter>, f: Filter)
    ensures ParamsOf(fs + [f]) == ParamsOf(fs) + FilterParams(f)
    decreases |fs|
  {
    if fs == [] {
      assert fs + [f] == [f];
      assert ParamsOf([f]) == FilterParams(f) + [];
    } else {
      assert (fs + [f])[1..] == fs[1..] + [f];
      ParamsSnoc(fs[1..], f);
    }
  }

  /**
    The GET /api/videos statement and its parameters, built as the handler builds
    them: one condition and its parameters pushed per supplied filter, joined
    with AND after a WHERE when there is any, and the ordering appended last.
   */
  method BuildVideoQuery(q: VideoQuery) returns (sql: Statement, params: seq<SqlParam>)
    ensures sql == ListStatement(ActiveFilters(q)) && params == ParamsOf(ActiveFilters(q))
    ensures Holes(sql) == |params|
  {
    sql := ListSelect;
    params := [];
    var conds: seq<Statement> := [];
    ghost var filters: seq<Filter> := [];
    if q.isShort.Some? {
      var f := ShortFilter(ListingIsShort(q.isShort.value));
      ConditionsSnoc(filters, f);
      ParamsSnoc(filters, f);
      conds := conds + [ShortCondition];
      params := params + [IntParam(ListingIsShort(q.isShort.value))];
      filters := filters + [f];
    }
    if Truthy(q.channelId) {
      var f := ChannelFilter(q.channelId.value);
      ConditionsSnoc(filters, f);
      ParamsSnoc(filters, f);
      conds := conds + [ChannelCondition];
      params := params + [TextParam(q.channelId.value)];
      filters := filters + [f];
    }
    if Truthy(q.search) {
      var pattern := "%" + q.search.value + "%";
      var f := SearchFilter(pattern);
      ConditionsSnoc(filters, f);
      ParamsSnoc(filters, f);
      conds := conds + [SearchCondition];
      params := params + [TextParam(pattern), TextParam(pattern)];
      filters := filters + [f];
    }
    assert filters == ActiveFilters(q);
    if |conds| > 0 {
      sql := sql + (WhereKeyword + JoinConditions(conds));
    }
    sql := sql + ListOrder;
    HolesMatchParams(filters);
  }

  /**
    What the parameters of a listing are: the isShort flag (1 only for 'true') first
    when isShort is present, the channel id next, and the search pattern twice last;
    one per condition, two for the search.
   */
  lemma QueryParams(q: VideoQuery)
    ensures var params := ParamsOf(ActiveFilters(q));
      && |params| == (if q.isShort.Some? then 1 else 0) + (if Truthy(q.channelId) then 1 else 0) + (if Truthy(q.search) then 2 else 0)
      && (q.isShort.Some? ==> params[0] == IntParam(if q.isShort.value == "true" then 1 else 0))
      && (Truthy(q.channelId) ==> params[if q.isShort.Some? then 1 else 0] == TextParam(q.channelId.value))
      && (Truthy(q.search) ==>
            params[|params| - 2..] == [TextParam("%" + q.search.value + "%"), TextParam("%" + q.search.value + "%")])
  {
    var s := if q.isShort.Some? then [ShortFilter(ListingIsShort(q.isShort.value))] else [];
    var c := if Truthy(q.channelId) then [ChannelFilter(q.channelId.value)] else [];
    var x := if Truthy(q.search) then [SearchFilter("%" + q.search.value + "%")] else [];
    assert ActiveFilters(q) == s + c + x;
    ParamsAppend(s, c);
    ParamsAppend(s + c, x);
    assert ParamsOf([]) == [];
    if s != [] { assert ParamsOf(s) == FilterParams(s[0]) + ParamsOf([]); }
    if c != [] { assert ParamsOf(c) == FilterParams(c[0]) + ParamsOf([]); }
    if x != [] { assert ParamsOf(x) == FilterParams(x[0]) + ParamsOf([]); }
  }

  lemma {:induction false} ParamsAppend(a: seq<Filter>, b: seq<Filter>)
    ensures ParamsOf(a + b) == ParamsOf(a) + ParamsOf(b)
    decreases |a|
  {
    if a == [] {
      assert a + b == b;
    } else {
      assert (a + b)[1..] == a[1..] + b;
      ParamsAppend(a[1..], b);
    }
  }

  /** The statement starts with the SELECT of videos joined with their channels and always ends with the ordering by date, newest first. */
  lemma StatementFrame(fs: seq<Filter>)
    ensures ListStatement(fs)[0] == ListSelect[0]
    ensures ListStatement(fs)[|ListStatement(fs)| - 1] == ListOrder[0]
  {
  }

  /** " WHERE " occurs in the statement exactly when there is a filter: conditions never contain it. */
  lemma WhereOnlyWithFilters(fs: seq<Filter>)
    ensures WhereKeyword[0] in ListStatement(fs) <==> fs != []
  {
    var w := WhereKeyword[0];
    assert w != ListSelect[0] && w != ListOrder[0] by {
      assert |w.text| != |ListSelect[0].text| && |w.text| != |ListOrder[0].text|;
    }
    if fs == [] {
      assert ListStatement(fs) == ListSelect + ListOrder;
    } else {
      assert ListStatement(fs)[1] == w;
    }
  }
}
