/**
 * The application's origin policy: the allowed-origins list computed at start-up
 * from `ENVIRONMENT` and `CORS_ORIGINS`, and the `check_origin` middleware that
 * answers 403 "Invalid origin" to a request from an origin outside the list.
 */
module Cors {
  import opened Wrappers
  import opened Text
  import opened Headers

  const Development := "development"
  const DefaultEnvironment := "production"
  const DefaultCorsOrigins := ""
  const Wildcard := "*"
  const InvalidOrigin := "Invalid origin"

  /** An entry of the list: not empty and without whitespace at either end. */
  predicate CleanOrigin(o: string) {
    o != "" && Stripped(o)
  }

  /** Every piece of a comma split, stripped. */
  function StripAll(pieces: seq<string>): (stripped: seq<string>)
    ensures |stripped| == |pieces|
    ensures forall k :: 0 <= k < |pieces| ==> stripped[k] == Strip(pieces[k])
    ensures forall p :: p in pieces ==> Strip(p) in stripped
  {
    if pieces == [] then [] else [Strip(pieces[0])] + StripAll(pieces[1..])
  }

  /** The non-empty strings of `xs`, in order. */
  function NonEmpty(xs: seq<string>): (ys: seq<string>)
    ensures |ys| <= |xs|
    ensures forall k :: 0 <= k < |ys| ==> ys[k] != "" && ys[k] in xs
    ensures forall x :: x in xs && x != "" ==> x in ys
  {
    if xs == [] then []
    else if xs[0] == "" then NonEmpty(xs[1..])
    else [xs[0]] + NonEmpty(xs[1..])
  }

  /**
   * The positions of `xs` that `NonEmpty` keeps, in increasing order: exactly
   * the positions of non-empty strings, and the output is `xs` read at them.
   */
  ghost function KeptPieces(xs: seq<string>): (idx: seq<nat>)
    ensures |idx| == |NonEmpty(xs)|
    ensures forall k :: 0 <= k < |idx| ==> idx[k] < |xs| && NonEmpty(xs)[k] == xs[idx[k]]
    ensures forall k, l :: 0 <= k < l < |idx| ==> idx[k] < idx[l]
    ensures forall i :: 0 <= i < |xs| ==> (i in idx <==> xs[i] != "")
  {
    if xs == [] then []
    else
      var tail := KeptPieces(xs[1..]);
      var idx := if xs[0] == "" then Shift(tail) else [0] + Shift(tail);
      ReadsKeptStep(xs, tail);
      AscendingStep(xs, tail);
      MarksNonEmptyStep(xs, tail);
      idx
  }

  /** `NonEmpty(xs)` is `xs` read at the positions `idx`. */
  ghost predicate ReadsKept(xs: seq<string>, idx: seq<nat>) {
    |idx| == |NonEmpty(xs)| && forall k :: 0 <= k < |idx| ==> idx[k] < |xs| && NonEmpty(xs)[k] == xs[idx[k]]
  }

  ghost predicate Ascending(idx: seq<nat>) {
    forall k, l :: 0 <= k < l < |idx| ==> idx[k] < idx[l]
  }

  /** `idx` holds exactly the positions of the non-empty strings of `xs`. */
  ghost predicate MarksNonEmpty(xs: seq<string>, idx: seq<nat>) {
    forall i :: 0 <= i < |xs| ==> (i in idx <==> xs[i] != "")
  }

  lemma ReadsKeptStep(xs: seq<string>, tail: seq<nat>)
    requires xs != [] && ReadsKept(xs[1..], tail)
    ensures ReadsKept(xs, if xs[0] == "" then Shift(tail) else [0] + Shift(tail))
  {
    var rest := NonEmpty(xs[1..]);
    var shifted := Shift(tail);
    forall k | 0 <= k < |tail| ensures shifted[k] < |xs| && rest[k] == xs[shifted[k]] {
      assert xs[1..][tail[k]] == xs[tail[k] + 1];
    }
  }

  lemma AscendingStep(xs: seq<string>, tail: seq<nat>)
    requires xs != [] && Ascending(tail)
    ensures Ascending(if xs[0] == "" then Shift(tail) else [0] + Shift(tail))
  {
  }

  lemma MarksNonEmptyStep(xs: seq<string>, tail: seq<nat>)
    requires xs != [] && MarksNonEmpty(xs[1..], tail)
    ensures MarksNonEmpty(xs, if xs[0] == "" then Shift(tail) else [0] + Shift(tail))
  {
    var shifted := Shift(tail);
    forall i | 1 <= i < |xs| ensures i in shifted <==> xs[i] != "" {
      assert xs[1..][i - 1] == xs[i];
      if i - 1 in tail {
        var k :| 0 <= k < |tail| && tail[k] == i - 1;
        assert shifted[k] == i;
      }
      if i in shifted {
        var k :| 0 <= k < |shifted| && shifted[k] == i;
        assert tail[k] == i - 1;
      }
    }
    assert 0 !in shifted;
  }

  /** Every position moved one place on. */
  function Shift(idx: seq<nat>): (r: seq<nat>)
    ensures |r| == |idx|
    ensures forall k :: 0 <= k < |idx| ==> r[k] == idx[k] + 1
  {
    seq(|idx|, k requires 0 <= k < |idx| => idx[k] + 1)
  }

  /** The entries of a comma split, each stripped, the empty ones dropped, in order. */
  function OriginEntries(pieces: seq<string>): seq<string> {
    NonEmpty(StripAll(pieces))
  }

  /** `allowed_origins` for the values of `ENVIRONMENT` and `CORS_ORIGINS`. */
  function AllowedOrigins(environment: string, corsOrigins: string): (origins: seq<string>)
    ensures environment == Development ==> origins == [Wildcard]
    ensures environment != Development ==> forall k :: 0 <= k < |origins| ==> CleanOrigin(origins[k])
    ensures environment != Development ==>
      forall p :: p in Split(corsOrigins, ',') && Strip(p) != "" ==> Strip(p) in origins
  {
    if environment == Development then [Wildcard]
    else
      OriginEntriesFromPieces(Split(corsOrigins, ','));
      OriginEntries(Split(corsOrigins, ','))
  }

  /** The same list read from the environment, with the defaults of unset variables. */
  function AllowedOriginsFromEnv(environment: Option<string>, corsOrigins: Option<string>): (origins: seq<string>)
    ensures environment == Some(Development) ==> origins == [Wildcard]
    ensures environment.None? ==> origins == OriginEntries(Split(corsOrigins.GetOr(DefaultCorsOrigins), ','))
    ensures environment != Some(Development) && corsOrigins.None? ==> origins == []
  {
    AllowedOrigins(environment.GetOr(DefaultEnvironment), corsOrigins.GetOr(DefaultCorsOrigins))
  }

  /** What the middleware does with a request. */
  datatype Gate = PassThrough | Reject(statusCode: int, detail: string)

  /** `check_origin` on the request's `Origin` header value. */
  function CheckOrigin(origin: Option<string>, allowed: seq<string>): (g: Gate)
    ensures g.PassThrough? <==> origin.None? || origin.value == "" || origin.value in allowed
    ensures g.Reject? ==> g == Reject(403, InvalidOrigin)
  {
    if origin.Some? && origin.value != "" && origin.value !in allowed then Reject(403, InvalidOrigin)
    else PassThrough
  }

  /** `check_origin` on a request's headers. */
  function CheckRequestOrigin(headers: seq<Header>, allowed: seq<string>): (g: Gate)
    ensures g.PassThrough? <==>
      forall k :: FirstNamed(headers, "origin", k) ==> headers[k].value == "" || headers[k].value in allowed
    ensures g.Reject? ==> g == Reject(403, InvalidOrigin)
  {
    CheckOrigin(Get(headers, "origin"), allowed)
  }

  /** Each allowed origin is the stripped form of some piece of the split, and so is clean. */
  lemma OriginEntriesFromPieces(pieces: seq<string>)
    ensures forall k :: 0 <= k < |OriginEntries(pieces)| ==>
      CleanOrigin(OriginEntries(pieces)[k]) && exists j :: StrippedFrom(pieces, j, OriginEntries(pieces)[k])
  {
    var stripped := StripAll(pieces);
    forall k | 0 <= k < |OriginEntries(pieces)|
      ensures CleanOrigin(OriginEntries(pieces)[k]) && exists j :: StrippedFrom(pieces, j, OriginEntries(pieces)[k])
    {
      var o := OriginEntries(pieces)[k];
      var j :| 0 <= j < |stripped| && stripped[j] == o;
      assert StrippedFrom(pieces, j, o);
    }
  }

  /**
   * Outside development the list is the split read in order: the entries are
   * the stripped pieces at increasing positions, and those positions are
   * exactly the pieces that are not blank.
   */
  lemma AllowedOriginsOrder(environment: string, corsOrigins: string)
    requires environment != Development
    ensures var pieces := Split(corsOrigins, ',');
      var origins := AllowedOrigins(environment, corsOrigins);
      var idx := KeptPieces(StripAll(pieces));
      && |idx| == |origins|
      && (forall k :: 0 <= k < |idx| ==> idx[k] < |pieces| && origins[k] == Strip(pieces[idx[k]]))
      && (forall k, l :: 0 <= k < l < |idx| ==> idx[k] < idx[l])
      && (forall i :: 0 <= i < |pieces| ==> (i in idx <==> Strip(pieces[i]) != ""))
  {
  }

  /** `o` is piece `j` of the split, stripped. */
  predicate StrippedFrom(pieces: seq<string>, j: int, o: string) {
    0 <= j < |pieces| && o == Strip(pieces[j])
  }

  /** Dropping empty strings distributes over concatenation. */
  lemma {:induction false} NonEmptyAppend(a: seq<string>, b: seq<string>)
    ensures NonEmpty(a + b) == NonEmpty(a) + NonEmpty(b)
  {
    if a == [] {
      assert a + b == b;
    } else {
      assert (a + b)[0] == a[0];
      assert (a + b)[1..] == a[1..] + b;
      NonEmptyAppend(a[1..], b);
    }
  }

  /** Parsing the pieces of two lists one after the other gives the two lists of entries one after the other. */
  lemma OriginEntriesAppend(a: seq<string>, b: seq<string>)
    ensures OriginEntries(a + b) == OriginEntries(a) + OriginEntries(b)
  {
    StripAllAppend(a, b);
    NonEmptyAppend(StripAll(a), StripAll(b));
  }

  lemma {:induction false} StripAllAppend(a: seq<string>, b: seq<string>)
    ensures StripAll(a + b) == StripAll(a) + StripAll(b)
  {
    if a == [] {
      assert a + b == b;
    } else {
      assert (a + b)[0] == a[0];
      assert (a + b)[1..] == a[1..] + b;
      StripAllAppend(a[1..], b);
    }
  }

  /** Non-empty strings are all kept. */
  lemma {:induction false} NonEmptyOfNonEmpty(xs: seq<string>)
    requires forall k :: 0 <= k < |xs| ==> xs[k] != ""
    ensures NonEmpty(xs) == xs
  {
    if xs != [] {
      NonEmptyOfNonEmpty(xs[1..]);
      assert [xs[0]] + xs[1..] == xs;
    }
  }

  /** Entries that are already clean are kept, all of them, in order. */
  lemma OriginEntriesOfClean(origins: seq<string>)
    requires forall k :: 0 <= k < |origins| ==> CleanOrigin(origins[k])
    ensures OriginEntries(origins) == origins
  {
    forall k | 0 <= k < |origins|
      ensures StripAll(origins)[k] == origins[k]
    {
      StripStripped(origins[k]);
    }
    assert StripAll(origins) == origins;
    NonEmptyOfNonEmpty(origins);
  }

  /** Outside development, a comma-joined list of clean, comma-free origins is read back exactly. */
  lemma AllowedOriginsJoin(environment: string, origins: seq<string>)
    requires environment != Development
    requires |origins| >= 1
    requires forall k :: 0 <= k < |origins| ==> CleanOrigin(origins[k]) && ',' !in origins[k]
    ensures AllowedOrigins(environment, Join(origins, ",")) == origins
  {
    SplitJoin(origins, ',');
    OriginEntriesOfClean(origins);
  }

  /** Unset `CORS_ORIGINS` outside development allows no origin at all. */
  lemma UnsetCorsOriginsAllowsNone(environment: Option<string>)
    requires environment.GetOr(DefaultEnvironment) != Development
    ensures AllowedOriginsFromEnv(environment, None) == []
  {
    assert Split("", ',') == [""];
    assert Strip("") == "";
  }

  /** Unset `ENVIRONMENT` means production. */
  lemma UnsetEnvironmentIsProduction(corsOrigins: Option<string>)
    ensures AllowedOriginsFromEnv(None, corsOrigins) == AllowedOrigins(DefaultEnvironment, corsOrigins.GetOr(DefaultCorsOrigins))
  {
  }

  /** A request without an `Origin` header, or with an empty one, always passes. */
  lemma NoOriginPasses(headers: seq<Header>, allowed: seq<string>)
    requires forall k :: 0 <= k < |headers| ==> !NameIs(headers[k], "origin") || headers[k].value == ""
    ensures CheckRequestOrigin(headers, allowed) == PassThrough
  {
    var v := Get(headers, "origin");
    if v.Some? {
      var k :| FirstNamed(headers, "origin", k) && v.value == headers[k].value;
    }
  }

  /**
   * Membership is exact: in development every non-empty origin except the
   * literal "*" is refused, the wildcard included in the list notwithstanding.
   */
  lemma DevelopmentRejectsRealOrigins(origin: string, corsOrigins: string)
    requires origin != ""
    ensures CheckOrigin(Some(origin), AllowedOrigins(Development, corsOrigins)).Reject? <==> origin != Wildcard
  {
  }

  /** When nothing is allowed, every non-empty origin is refused with 403. */
  lemma EmptyListRejects(origin: string)
    requires origin != ""
    ensures CheckOrigin(Some(origin), []) == Reject(403, InvalidOrigin)
  {
  }
}
