/**
 * The request context (`getCtx` in src/context.ts): a request path
 * `/tier/org/site/content/path` names an Edge Delivery origin
 * `https://main--site--org.aem.<tld>` and a content path inside it.
 * The model starts from the URL's pathname.
 */
module Context {
  import opened Results
  import opened JsString

  /**
   * `Ctx`. The source types `org` and `site` as strings, but destructuring
   * a path with fewer segments leaves them undefined (`None` here).
   */
  datatype Ctx = Ctx(org: Option<string>, site: Option<string>, edsDomainUrl: string, contentPath: string)

  /** The error `getCtx` throws. */
  datatype UsageError = UsageError(message: string)

  const UsageMessage := "Usage: /tld/org/site/path"

  /** `getTld`: the host suffix of a tier. */
  function GetTld(tier: string): (r: string)
    ensures r == "page" <==> tier == "preview"
    ensures r == "reviews" <==> tier == "review"
    ensures r == "live" <==> tier != "preview" && tier != "review"
  {
    if tier == "preview" then "page"
    else if tier == "review" then "reviews"
    else "live"
  }

  /** The path segments: the first `.json` removed, then the leading character, then split on `/`. */
  function Segments(pathname: string): (r: seq<string>)
    ensures |r| >= 1
  {
    Split(DropFirst(ReplaceFirst(pathname, ".json", "")), '/')
  }

  /** Array destructuring: the element at `i`, undefined past the end. */
  function Segment(parts: seq<string>, i: nat): (r: Option<string>)
    ensures r.Some? <==> i < |parts|
    ensures r.Some? ==> r.value == parts[i]
  {
    if i < |parts| then Some(parts[i]) else None
  }

  /** A segment JavaScript treats as false: undefined or empty. */
  predicate Falsy(v: Option<string>)
  {
    v == None || v == Some("")
  }

  /** A value in a template literal: undefined is written `undefined`. */
  function Interpolate(v: Option<string>): (r: string)
    ensures v.Some? ==> r == v.value
    ensures v.None? ==> r == "undefined"
  {
    match v
    case Some(s) => s
    case None => "undefined"
  }

  /** The origin `https://main--${site}--${org}.aem.${tld}` of a tier, org and site. */
  function Origin(tier: string, org: Option<string>, site: Option<string>): string
  {
    "https://main--" + Interpolate(site) + "--" + Interpolate(org) + ".aem." + GetTld(tier)
  }

  /** The origin of a defined org and site is read back from its parts. */
  lemma OriginOf(tier: string, org: string, site: string)
    ensures Origin(tier, Some(org), Some(site)) == "https://main--" + site + "--" + org + ".aem." + GetTld(tier)
  {
  }

  /** Everything after the third segment, joined with `/` (`""` when there is nothing). */
  function Rest(parts: seq<string>): (r: string)
    ensures |parts| <= 3 ==> r == ""
    ensures |parts| > 3 ==> r == Join(parts[3..], '/')
  {
    if |parts| <= 3 then "" else Join(parts[3..], '/')
  }

  /**
   * `getCtx`: fails exactly when org and site are both missing or empty;
   * otherwise org and site are the second and third segments, the origin
   * is built from them and the tier's host suffix, and the content path is
   * the remaining segments.
   */
  function GetCtx(pathname: string): (r: Result<Ctx, UsageError>)
    ensures var parts := Segments(pathname);
      r.Err? <==> Falsy(Segment(parts, 1)) && Falsy(Segment(parts, 2))
    ensures r.Err? ==> r.error == UsageError(UsageMessage)
    ensures var parts := Segments(pathname);
      r.Ok? ==> && r.value.org == Segment(parts, 1)
                && r.value.site == Segment(parts, 2)
                && r.value.edsDomainUrl == Origin(parts[0], Segment(parts, 1), Segment(parts, 2))
                && r.value.contentPath == Rest(parts)
  {
    var parts := Segments(pathname);
    var tier, org, site := parts[0], Segment(parts, 1), Segment(parts, 2);
    var tld := GetTld(tier);
    if Falsy(org) && Falsy(site) then Err(UsageError(UsageMessage))
    else Ok(Ctx(org, site, "https://main--" + Interpolate(site) + "--" + Interpolate(org) + ".aem." + tld, Rest(parts)))
  }

  // ---------------------------------------------------------------------------
  // Properties
  // ---------------------------------------------------------------------------

  /** `.json` starts with a character that does not recur in it. */
  lemma JsonPatternShape()
    ensures ".json"[0] !in ".json"[1..]
  {
    assert ".json"[1..] == "json";
  }

  /** The segments hold no `/`, and joined with `/` give the path without its first `.json` and first character. */
  lemma SegmentsRejoin(pathname: string)
    ensures Join(Segments(pathname), '/') == DropFirst(ReplaceFirst(pathname, ".json", ""))
    ensures forall p <- Segments(pathname) :: '/' !in p
  {
    JoinSplit(DropFirst(ReplaceFirst(pathname, ".json", "")), '/');
    SplitPieces(DropFirst(ReplaceFirst(pathname, ".json", "")), '/');
  }

  /** Only the first `.json` is removed, wherever it is; a later one is kept. */
  lemma FirstJsonRemoved(a: string, b: string)
    requires !Contains(a, ".json")
    ensures Segments(a + ".json" + b) == Split(DropFirst(a + b), '/')
  {
    JsonPatternShape();
    ReplaceFirstAt(a, ".json", b, "");
    assert a + "" + b == a + b;
  }

  /** A path without `.json` is split after its leading `/`. */
  lemma PlainPathSegments(body: string)
    requires !Contains("/" + body, ".json")
    ensures Segments("/" + body) == Split(body, '/')
  {
    var pathname := "/" + body;
    assert ReplaceFirst(pathname, ".json", "") == pathname;
    assert DropFirst(pathname) == body;
  }

  /** Two pieces without `/` are split off in front of the rest. */
  lemma SplitTwo(o: string, s: string, p: string)
    requires '/' !in o && '/' !in s
    ensures Split(o + "/" + (s + "/" + p), '/') == [o, s] + Split(p, '/')
  {
    var siteRest := s + "/" + p;
    SplitCons(o, siteRest, '/');
    SplitCons(s, p, '/');
  }

  /** Three pieces without `/` are split off in front of the rest. */
  lemma SplitThree(t: string, o: string, s: string, p: string)
    requires '/' !in t && '/' !in o && '/' !in s
    ensures Split(t + "/" + (o + "/" + (s + "/" + p)), '/') == [t, o, s] + Split(p, '/')
  {
    var rest := o + "/" + (s + "/" + p);
    var tail := Split(p, '/');
    assert Split(t + "/" + rest, '/') == [t] + Split(rest, '/') by {
      SplitCons(t, rest, '/');
    }
    assert Split(rest, '/') == [o, s] + tail by {
      SplitTwo(o, s, p);
    }
    assert [t] + ([o, s] + tail) == [t, o, s] + tail;
  }

  /** Three pieces without `/` split into themselves. */
  lemma SplitExactlyThree(t: string, o: string, s: string)
    requires '/' !in t && '/' !in o && '/' !in s
    ensures Split(t + "/" + (o + "/" + s), '/') == [t, o, s]
  {
    var orgRest := o + "/" + s;
    assert Split(t + "/" + orgRest, '/') == [t] + Split(orgRest, '/') by {
      SplitCons(t, orgRest, '/');
    }
    assert Split(orgRest, '/') == [o] + Split(s, '/') by {
      SplitCons(o, s, '/');
    }
    SplitNoSeparator(s, '/');
  }

  /** `getCtx` of a path whose segments are known, with an org. */
  lemma GetCtxOfSegments(pathname: string, parts: seq<string>)
    requires Segments(pathname) == parts && |parts| >= 2 && parts[1] != []
    ensures GetCtx(pathname) == Ok(Ctx(Some(parts[1]), Segment(parts, 2),
      Origin(parts[0], Some(parts[1]), Segment(parts, 2)), Rest(parts)))
  {
  }

  /** The segments of `/t/o/s/p`. */
  lemma RoundTripSegments(t: string, o: string, s: string, p: string)
    requires '/' !in t && '/' !in o && '/' !in s
    requires !Contains("/" + t + "/" + o + "/" + s + "/" + p, ".json")
    ensures Segments("/" + t + "/" + o + "/" + s + "/" + p) == [t, o, s] + Split(p, '/')
  {
    var body := t + "/" + (o + "/" + (s + "/" + p));
    assert "/" + t + "/" + o + "/" + s + "/" + p == "/" + body;
    PlainPathSegments(body);
    SplitThree(t, o, s, p);
  }

  /**
   * The request paths the worker is meant for, `/tier/org/site/path`,
   * read back as their own parts.
   */
  lemma GetCtxRoundTrip(t: string, o: string, s: string, p: string)
    requires '/' !in t && '/' !in o && '/' !in s
    requires o != []
    requires !Contains("/" + t + "/" + o + "/" + s + "/" + p, ".json")
    ensures GetCtx("/" + t + "/" + o + "/" + s + "/" + p)
      == Ok(Ctx(Some(o), Some(s), Origin(t, Some(o), Some(s)), p))
  {
    RoundTripSegments(t, o, s, p);
    var parts := [t, o, s] + Split(p, '/');
    GetCtxOfSegments("/" + t + "/" + o + "/" + s + "/" + p, parts);
    assert Rest(parts) == p by {
      assert parts[3..] == Split(p, '/');
      JoinSplit(p, '/');
    }
  }

  /** The segments of `/t/o/s`. */
  lemma ThreeSegments(t: string, o: string, s: string)
    requires '/' !in t && '/' !in o && '/' !in s
    requires !Contains("/" + t + "/" + o + "/" + s, ".json")
    ensures Segments("/" + t + "/" + o + "/" + s) == [t, o, s]
  {
    var body := t + "/" + (o + "/" + s);
    assert "/" + t + "/" + o + "/" + s == "/" + body;
    PlainPathSegments(body);
    SplitExactlyThree(t, o, s);
  }

  /** A path that ends after the site has an empty content path. */
  lemma NoContentPath(t: string, o: string, s: string)
    requires '/' !in t && '/' !in o && '/' !in s
    requires o != []
    requires !Contains("/" + t + "/" + o + "/" + s, ".json")
    ensures GetCtx("/" + t + "/" + o + "/" + s)
      == Ok(Ctx(Some(o), Some(s), Origin(t, Some(o), Some(s)), ""))
  {
    ThreeSegments(t, o, s);
    GetCtxOfSegments("/" + t + "/" + o + "/" + s, [t, o, s]);
  }

  /** The segments of `/t/o`. */
  lemma TwoSegments(t: string, o: string)
    requires '/' !in t && '/' !in o
    requires !Contains("/" + t + "/" + o, ".json")
    ensures Segments("/" + t + "/" + o) == [t, o]
  {
    var body := t + "/" + o;
    assert "/" + t + "/" + o == "/" + body;
    PlainPathSegments(body);
    SplitCons(t, o, '/');
    SplitNoSeparator(o, '/');
  }

  /** An org alone is accepted: the site is then undefined, and so written in the origin. */
  lemma OrgWithoutSite(t: string, o: string)
    requires '/' !in t && '/' !in o
    requires o != []
    requires !Contains("/" + t + "/" + o, ".json")
    ensures GetCtx("/" + t + "/" + o)
      == Ok(Ctx(Some(o), None, Origin(t, Some(o), None), ""))
  {
    TwoSegments(t, o);
    GetCtxOfSegments("/" + t + "/" + o, [t, o]);
  }

  /** A site alone (empty org segment) is accepted too. */
  lemma SiteWithoutOrg(t: string, s: string)
    requires '/' !in t && '/' !in s
    requires s != []
    requires !Contains("/" + t + "//" + s, ".json")
    ensures GetCtx("/" + t + "//" + s)
      == Ok(Ctx(Some(""), Some(s), Origin(t, Some(""), Some(s)), ""))
  {
    assert "/" + t + "//" + s == "/" + t + "/" + "" + "/" + s;
    ThreeSegments(t, "", s);
    var parts := [t, "", s];
    assert Segments("/" + t + "//" + s) == parts;
    assert !Falsy(Segment(parts, 2));
  }

  /** A path with only a tier is a usage error. */
  lemma TierOnlyIsUsageError(t: string)
    requires '/' !in t
    requires !Contains("/" + t, ".json")
    ensures GetCtx("/" + t) == Err(UsageError(UsageMessage))
  {
    PlainPathSegments(t);
    SplitNoSeparator(t, '/');
  }
}
