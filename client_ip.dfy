/**
 * `get_client_ip`: the address a request is logged under, chosen by header
 * precedence — a non-empty `X-Client-IP` (stripped), else the text before the
 * first comma of a non-empty `X-Forwarded-For`, else the peer address.
 */
module ClientIp {
  import opened Wrappers
  import opened Text
  import opened Headers

  const ClientIpHeader := "X-Client-IP"
  const ForwardedForHeader := "X-Forwarded-For"

  /** Python truthiness of an optional header value: present and not the empty string. */
  predicate Truthy(v: Option<string>) {
    v.Some? && v.value != ""
  }

  /** The first entry of a forwarded-for list: a prefix without commas that is the whole value or ends at a comma. */
  predicate FirstEntry(v: string, entry: string) {
    entry <= v && ',' !in entry && (|entry| == |v| || v[|entry|] == ',')
  }

  /** The choice made on the two header values and the peer address `clientHost`. */
  function ClientIpFrom(xClientIp: Option<string>, forwardedFor: Option<string>, clientHost: string): (ip: string)
    ensures Truthy(xClientIp) ==> Stripped(ip) && TrimmedAt(xClientIp.value, StripOffset(xClientIp.value), ip)
    ensures !Truthy(xClientIp) && Truthy(forwardedFor) ==> FirstEntry(forwardedFor.value, ip)
    ensures !Truthy(xClientIp) && !Truthy(forwardedFor) ==> ip == clientHost
  {
    if Truthy(xClientIp) then
      StripTrimmed(xClientIp.value);
      Strip(xClientIp.value)
    else if Truthy(forwardedFor) then
      var v := forwardedFor.value;
      var i := IndexOf(v, ',');
      assert Split(v, ',')[0] == v[..i];
      Split(v, ',')[0]
    else clientHost
  }

  /** `get_client_ip(request)` on the request's headers and its peer address. */
  function GetClientIp(headers: seq<Header>, clientHost: string): (ip: string)
    ensures forall k :: FirstNamed(headers, ClientIpHeader, k) && headers[k].value != "" ==>
      ip == Strip(headers[k].value)
    ensures (forall k :: FirstNamed(headers, ClientIpHeader, k) ==> headers[k].value == "") ==>
      forall k :: FirstNamed(headers, ForwardedForHeader, k) && headers[k].value != "" ==> FirstEntry(headers[k].value, ip)
    ensures (forall k :: FirstNamed(headers, ClientIpHeader, k) ==> headers[k].value == "") &&
            (forall k :: FirstNamed(headers, ForwardedForHeader, k) ==> headers[k].value == "") ==>
      ip == clientHost
  {
    ClientIpFrom(Get(headers, ClientIpHeader), Get(headers, ForwardedForHeader), clientHost)
  }

  /** The first entry of a forwarded-for list is unique: the rule picks exactly one string. */
  lemma FirstEntryUnique(v: string, a: string, b: string)
    requires FirstEntry(v, a) && FirstEntry(v, b)
    ensures a == b
  {
  }

  /** A non-empty `X-Client-IP` decides alone: the forwarded-for list and the peer are not consulted. */
  lemma ClientIpPrecedence(x: string, f1: Option<string>, f2: Option<string>, host1: string, host2: string)
    requires x != ""
    ensures ClientIpFrom(Some(x), f1, host1) == ClientIpFrom(Some(x), f2, host2) == Strip(x)
  {
  }

  /** An empty header counts as a missing one. */
  lemma EmptyHeaderIsAbsent(x: Option<string>, f: Option<string>, host: string)
    ensures ClientIpFrom(Some(""), f, host) == ClientIpFrom(None, f, host)
    ensures ClientIpFrom(x, Some(""), host) == ClientIpFrom(x, None, host)
  {
  }

  /** A forwarded-for value without a comma is returned whole, surrounding whitespace included. */
  lemma ForwardedWithoutComma(v: string, host: string)
    requires v != "" && ',' !in v
    ensures ClientIpFrom(None, Some(v), host) == v
  {
    IndexOfAbsent(v, ',');
  }

  /** The forwarded-for value of a list of comma-free entries yields the first entry, unstripped. */
  lemma ForwardedListFirst(entries: seq<string>, host: string)
    requires |entries| >= 1 && forall k :: 0 <= k < |entries| ==> ',' !in entries[k]
    requires Join(entries, ",") != ""
    ensures ClientIpFrom(None, Some(Join(entries, ",")), host) == entries[0]
  {
    SplitJoin(entries, ',');
  }

  /** An `X-Client-IP` made only of whitespace is truthy, so its stripped form, the empty string, is returned. */
  lemma WhitespaceClientIp(x: string, f: Option<string>, host: string)
    requires x != "" && AllSpace(x)
    ensures ClientIpFrom(Some(x), f, host) == ""
  {
    StripTrimmed(x);
  }

  /** Header names are matched regardless of case: a lower-case `x-client-ip` in front wins. */
  lemma GetClientIpLowerCase(x: string, rest: seq<Header>, host: string)
    requires x != ""
    ensures GetClientIp([Header("x-client-ip", x)] + rest, host) == Strip(x)
  {
    assert Lower("x-client-ip") == Lower(ClientIpHeader);
    GetFront(Header("x-client-ip", x), rest, ClientIpHeader);
  }
}
