/**
 * The pieces of a `data:<mime>;base64,<payload>` URL (section 3 of RFC 2397)
 * as the server code cuts them out with `split`: the declared media type,
 * and the payload as the middleware and the image service each find it.
 */
module DataUrl {
  import opened Base

  const ImagePrefix := "data:image/"
  const Base64Marker := ";base64,"

  /** `s.split(';')[0].split(':')[1]`: the declared media type of a data URL. */
  function MediaType(s: string): (m: Option<string>)
    ensures m.Some? ==> ';' !in m.value && ':' !in m.value
  {
    var head := Field(s, ';', 0).value;
    match Field(head, ':', 1)
    case None => None
    case Some(mime) =>
      SplitPieces(s, ';');
      assert ';' !in head;
      assert forall c :: c in mime ==> c in head by {
        SplitPiecesWithin(head, ':', 1);
      }
      Some(mime)
  }

  /** `s.split(',')[1] || ''`: the text between the first and the second comma. */
  function CommaPayload(s: string): (p: string)
    ensures ',' !in p
  {
    match Field(s, ',', 1) case Some(p) => p case None => ""
  }

  /** The last index at which `part` occurs in `s`, looking only at start positions below `n`. */
  function LastOccurrenceBelow(s: string, part: string, n: nat): (r: Option<nat>)
    requires n <= |s| + 1
    ensures r.Some? ==> r.value < n && OccursAt(s, part, r.value)
    ensures r.Some? ==> forall j :: r.value < j < n ==> !OccursAt(s, part, j)
    ensures r.None? ==> forall j :: 0 <= j < n ==> !OccursAt(s, part, j)
  {
    if n == 0 then None
    else if OccursAt(s, part, n - 1) then Some(n - 1)
    else LastOccurrenceBelow(s, part, n - 1)
  }

  /** The last index at which `part` occurs in `s`. */
  function LastOccurrence(s: string, part: string): (r: Option<nat>)
    ensures r.Some? ==> OccursAt(s, part, r.value)
    ensures r.Some? ==> forall j :: r.value < j <= |s| ==> !OccursAt(s, part, j)
    ensures r.None? <==> !Contains(s, part)
  {
    LastOccurrenceBelow(s, part, |s| + 1)
  }

  /**
   * `s.split(';base64,').pop()`: the text after the last `;base64,`, or all
   * of `s` when there is none. (Two occurrences of `;base64,` cannot
   * overlap, so the last piece of the split starts after the last one.)
   */
  function Base64Payload(s: string): (p: string)
    ensures !Contains(p, Base64Marker) || p == s
    ensures Contains(s, Base64Marker) ==> |p| + |Base64Marker| <= |s| && p == s[|s| - |p|..]
    ensures Contains(s, Base64Marker) ==>
              && OccursAt(s, Base64Marker, |s| - |p| - |Base64Marker|)
              && forall j :: |s| - |p| - |Base64Marker| < j <= |s| ==> !OccursAt(s, Base64Marker, j)
  {
    match LastOccurrence(s, Base64Marker)
    case None => s
    case Some(i) =>
      var p := s[i + |Base64Marker|..];
      assert !Contains(p, Base64Marker) by {
        forall j | 0 <= j <= |p|
          ensures OccursAt(p, Base64Marker, j) ==> OccursAt(s, Base64Marker, i + |Base64Marker| + j)
        {
          if j + |Base64Marker| <= |p| {
            assert s[i + |Base64Marker| + j..i + |Base64Marker| + j + |Base64Marker|] == p[j..j + |Base64Marker|];
          }
        }
      }
      p
  }

  /** A data URL's declared media type is the text between `data:` and the first `;`. */
  lemma MediaTypeOf(mime: string, rest: string)
    requires ';' !in mime && ':' !in mime
    ensures MediaType("data:" + mime + ";" + rest) == Some(mime)
  {
    var s := "data:" + mime + ";" + rest;
    var head := "data:" + mime;
    assert ';' !in head;
    assert s == head + [';'] + rest;
    FirstPiece(head, rest, ';');
    assert head == "data" + [':'] + mime;
    SplitTwo("data", mime, ':');
  }

  /** The middleware's payload of a data URL with a single comma is the text after it. */
  lemma CommaPayloadOf(head: string, payload: string)
    requires ',' !in head && ',' !in payload
    ensures CommaPayload(head + [','] + payload) == payload
  {
    SplitTwo(head, payload, ',');
  }

  /**
   * The middleware and the image service agree on the payload of a
   * well-formed base64 data URL whose payload has no comma, as base64 text
   * never has.
   */
  lemma PayloadsAgree(mime: string, payload: string)
    requires ',' !in mime && ',' !in payload && ';' !in payload
    ensures CommaPayload("data:" + mime + Base64Marker + payload) == payload
    ensures Base64Payload("data:" + mime + Base64Marker + payload) == payload
  {
    var head := "data:" + mime + ";base64";
    var s := "data:" + mime + Base64Marker + payload;
    assert s == head + [','] + payload;
    CommaPayloadOf(head, payload);
    var i := |"data:" + mime|;
    assert OccursAt(s, Base64Marker, i);
    forall j | i < j <= |s|
      ensures !OccursAt(s, Base64Marker, j)
    {
      if j < |s| {
        if j < i + |Base64Marker| {
          assert s[j] == Base64Marker[j - i];
        } else {
          assert s[j] == payload[j - i - |Base64Marker|];
        }
        assert s[j] != ';';
      }
    }
    assert LastOccurrence(s, Base64Marker) == Some(i);
  }
}
