/** Pagination tokens: a position in a listing, made opaque for the wire. */
module Cursors {
  import opened Wrappers
  import opened Text
  import Base64

  const VERSION := "v1"

  /** The place a page stopped: start time in nanoseconds, then run id. */
  datatype Cursor = Cursor(startedAt: int, runID: string)

  function RunPayload(c: Cursor): string {
    VERSION + [':'] + (OfInt(WrapInt64(c.startedAt)) + [':'] + c.runID)
  }

  lemma PayloadIsBytes(c: Cursor)
    requires Base64.IsBytes(c.runID)
    ensures Base64.IsBytes(RunPayload(c))
  {
    var d := OfInt(WrapInt64(c.startedAt));
    assert forall i :: 0 <= i < |d| ==> Text.IsDigit(d[i]) || d[i] == '-';
  }

  /** `UnixNano` truncates an instant outside the int64 range. */
  function EncodeCursor(c: Cursor): (token: string)
    requires Base64.IsBytes(c.runID)
    ensures token != ""
  {
    PayloadIsBytes(c);
    Base64.Encode(RunPayload(c))
  }

  function DecodeCursor(token: string): Option<Cursor> {
    var raw :- Base64.Decode(token);
    var versioned :- CutColon(raw);
    if versioned.0 != VERSION then None
    else
      var fields :- CutColon(versioned.1);
      if fields.1 == "" then None
      else
        var ns :- ParseInt64(fields.0);
        Some(Cursor(ns, fields.1))
  }

  /** What a token decodes to: the cursor, its instant cut to 64 bits, if it names a run. */
  lemma DecodedToken(c: Cursor)
    requires Base64.IsBytes(c.runID)
    ensures DecodeCursor(EncodeCursor(c)) == NilIf(c.runID == "", Cursor(WrapInt64(c.startedAt), c.runID))
  {
    PayloadIsBytes(c);
    var ns := WrapInt64(c.startedAt);
    Base64.DecodeEncode(RunPayload(c));
    CutColonAt(VERSION, OfInt(ns) + [':'] + c.runID);
    CutColonAt(OfInt(ns), c.runID);
    ParsePrinted(ns);
  }

  /**
   A token decodes to the cursor it was made from exactly when the instant fits
   an int64 and the run id is not empty; colons in the id and instants before
   1970 are no obstacle.
   */
  lemma CursorRoundTrip(c: Cursor)
    requires Base64.IsBytes(c.runID)
    ensures DecodeCursor(EncodeCursor(c)) == Some(c) <==> FitsInt64(c.startedAt) && c.runID != ""
  {
    DecodedToken(c);
  }

  /** `raw` reads v1, the instant in decimal and the run id, between colons. */
  ghost predicate Payload(raw: string, ns: string, c: Cursor) {
    && raw == "v1:" + ns + ":" + c.runID && ':' !in ns
    && ParseInt64(ns) == Some(c.startedAt) && c.runID != ""
  }

  lemma DecodedIsPayload(token: string, raw: string, c: Cursor) returns (ns: string)
    requires Base64.Decode(token) == Some(raw) && DecodeCursor(token) == Some(c)
    ensures Payload(raw, ns, c)
  {
    var versioned := CutColon(raw).value;
    CutColonExactly(raw, versioned.0, versioned.1);
    var fields := CutColon(versioned.1).value;
    CutColonExactly(versioned.1, fields.0, fields.1);
    ns := fields.0;
    BetweenColons(raw, versioned.1, ns, c.runID);
  }

  lemma BetweenColons(raw: string, rest: string, ns: string, id: string)
    requires raw == VERSION + [':'] + rest && rest == ns + [':'] + id
    ensures raw == "v1:" + ns + ":" + id
  {
    assert VERSION + [':'] == "v1:";
  }

  lemma PayloadDecodes(token: string, raw: string, ns: string, c: Cursor)
    requires Base64.Decode(token) == Some(raw) && Payload(raw, ns, c)
    ensures DecodeCursor(token) == Some(c)
  {
    assert raw == VERSION + [':'] + (ns + [':'] + c.runID);
    CutColonAt(VERSION, ns + [':'] + c.runID);
    CutColonAt(ns, c.runID);
  }

  /** A token is a cursor exactly when it is base64 for a version, an instant and a run id; any other is refused. */
  lemma DecodeCursorExactly(token: string, c: Cursor)
    ensures DecodeCursor(token) == Some(c) <==>
            Base64.Decode(token).Some? && exists ns :: Payload(Base64.Decode(token).value, ns, c)
  {
    if DecodeCursor(token) == Some(c) { var ns := DecodedIsPayload(token, Base64.Decode(token).value, c); }
    if Base64.Decode(token).Some? {
      if ns :| Payload(Base64.Decode(token).value, ns, c) { PayloadDecodes(token, Base64.Decode(token).value, ns, c); }
    }
  }

  function EncodeSpreadCursor(fingerprint: string): (token: string)
    requires Base64.IsBytes(fingerprint)
    ensures token != ""
  {
    Base64.Encode(VERSION + [':'] + fingerprint)
  }

  function DecodeSpreadCursor(token: string): Option<string> {
    var raw :- Base64.Decode(token);
    var versioned :- CutColon(raw);
    if versioned.0 != VERSION || versioned.1 == "" then None else Some(versioned.1)
  }

  lemma DecodeSpreadCursorExactly(token: string, fingerprint: string)
    ensures DecodeSpreadCursor(token) == Some(fingerprint) <==>
            Base64.Decode(token) == Some("v1:" + fingerprint) && fingerprint != ""
  {
    if Base64.Decode(token).Some? { CutColonExactly(Base64.Decode(token).value, VERSION, fingerprint); }
    assert "v1:" + fingerprint == VERSION + [':'] + fingerprint;
  }

  lemma SpreadCursorRoundTrip(fingerprint: string)
    requires Base64.IsBytes(fingerprint)
    ensures DecodeSpreadCursor(EncodeSpreadCursor(fingerprint)) == Some(fingerprint) <==> fingerprint != ""
  {
    Base64.DecodeEncode(VERSION + [':'] + fingerprint);
    CutColonAt(VERSION, fingerprint);
  }
}
