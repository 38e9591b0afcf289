/**
 * Request headers as the web framework presents them: a list of name/value
 * pairs whose names are compared without regard to ASCII case, where a lookup
 * yields the value of the first matching pair.
 */
module Headers {
  import opened Wrappers

  datatype Header = Header(name: string, value: string)

  function LowerChar(c: char): char {
    if 'A' <= c <= 'Z' then (c as int + 32) as char else c
  }

  /** ASCII lower-casing, character by character. */
  function Lower(s: string): (r: string)
    ensures |r| == |s|
    ensures forall i :: 0 <= i < |s| ==> r[i] == LowerChar(s[i])
  {
    seq(|s|, i requires 0 <= i < |s| => LowerChar(s[i]))
  }

  predicate NameIs(h: Header, name: string) {
    Lower(h.name) == Lower(name)
  }

  /** The position of the first header called `name`, or `|headers|` when there is none. */
  function Find(headers: seq<Header>, name: string): (i: nat)
    ensures i <= |headers|
    ensures forall k :: 0 <= k < i ==> !NameIs(headers[k], name)
    ensures i < |headers| ==> NameIs(headers[i], name)
  {
    if headers == [] then 0
    else if NameIs(headers[0], name) then 0
    else 1 + Find(headers[1..], name)
  }

  /** `request.headers.get(name)`: the value of the first header called `name`, if any. */
  function Get(headers: seq<Header>, name: string): (v: Option<string>)
    ensures v.None? <==> forall k :: 0 <= k < |headers| ==> !NameIs(headers[k], name)
    ensures v.Some? ==> exists k :: FirstNamed(headers, name, k) && v.value == headers[k].value
  {
    var i := Find(headers, name);
    if i < |headers| then
      assert FirstNamed(headers, name, i);
      Some(headers[i].value)
    else None
  }

  /** `headers[k]` is the first header called `name`. */
  predicate FirstNamed(headers: seq<Header>, name: string, k: int) {
    0 <= k < |headers| && NameIs(headers[k], name) && forall j :: 0 <= j < k ==> !NameIs(headers[j], name)
  }

  /** A header placed in front of the others wins a lookup of its name, whatever its spelling. */
  lemma {:induction false} GetFront(h: Header, rest: seq<Header>, name: string)
    requires NameIs(h, name)
    ensures Get([h] + rest, name) == Some(h.value)
  {
    assert ([h] + rest)[0] == h;
  }

  /** Headers with other names do not affect a lookup. */
  lemma {:induction false} GetSkips(h: Header, rest: seq<Header>, name: string)
    requires !NameIs(h, name)
    ensures Get([h] + rest, name) == Get(rest, name)
  {
    var hs := [h] + rest;
    assert hs[0] == h && hs[1..] == rest;
    assert Find(hs, name) == 1 + Find(rest, name);
  }
}
