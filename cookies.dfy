/**
  Locating the identity inside a cookie header value, shared by both
  variants of the pipeline: the `amplitude_id` marker that selects a
  `;`-separated segment, and `trimNextEqual`, which takes the text after the
  segment's first `=`.
 */
module Cookies {
  import opened Wrappers
  import opened Strings

  /** The substring that marks a cookie segment carrying the identity. */
  const Marker: string := "amplitude_id"

  /** The segments of a cookie value that carry the marker, in order. */
  function MarkedSegments(segments: seq<string>): seq<string>
  {
    if |segments| == 0 then []
    else if Contains(segments[0], Marker) then [segments[0]] + MarkedSegments(segments[1..])
    else MarkedSegments(segments[1..])
  }

  /** The filter keeps exactly the segments that carry the marker, and no more of them. */
  lemma {:induction false} MarkedSegmentsFilter(segments: seq<string>)
    ensures forall x :: x in MarkedSegments(segments) <==> x in segments && Contains(x, Marker)
    ensures |MarkedSegments(segments)| <= |segments|
    decreases |segments|
  {
    if |segments| > 0 {
      MarkedSegmentsFilter(segments[1..]);
      assert segments == [segments[0]] + segments[1..];
    }
  }

  /**
    The text after the first '=' of `s`. With no '=' at all the source's
    `s[i+1:]` is out of range (a run-time panic): `None`. The result is the
    exact suffix after the first '=', so later '=' characters (base64
    padding) are kept.
   */
  function AfterFirstEqual(s: string): (r: Option<string>)
    ensures r.None? <==> '=' !in s
    ensures r.Some? ==>
      var k := |s| - |r.value| - 1;
      0 <= k && s[k] == '=' && '=' !in s[..k] && r.value == s[k + 1..]
  {
    if |s| == 0 then None
    else if s[0] == '=' then Some(s[1..])
    else
      var r := AfterFirstEqual(s[1..]);
      assert r.Some? ==> s[1..][..|s| - |r.value| - 2] == s[1..|s| - |r.value| - 1];
      r
  }

  /** `trimNextEqual`: an index scan for the first '=' followed by a slice. */
  method TrimNextEqual(s: string) returns (r: Option<string>)
    ensures r == AfterFirstEqual(s)
  {
    var i := 0;
    while i < |s|
      invariant 0 <= i <= |s|
      invariant AfterFirstEqual(s[i..]) == AfterFirstEqual(s)
    {
      if s[i] == '=' {
        break;
      }
      i := i + 1;
    }
    if i + 1 <= |s| {
      r := Some(s[i + 1..]);
    } else {
      r := None;
    }
  }

  /** A key with no '=' followed by "=" and a value: the value comes back whole. */
  lemma AfterKey(key: string, value: string)
    requires '=' !in key
    ensures AfterFirstEqual(key + "=" + value) == Some(value)
  {
    var s := key + "=" + value;
    assert s[|key|] == '=';
    assert s[..|key|] == key;
  }
}
