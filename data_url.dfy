/**
 * The image encoder's last step: the browser's reader yields a data URL
 * `data:<mime>;base64,<payload>`, and the payload is taken as
 * `dataUrl.split(',')[1]`.
 */
module DataUrl {
  import opened Wrappers

  /**
   * JavaScript's `s.split(sep)` for a one-character separator: the pieces
   * between separators, one more piece than there are separators, none of
   * them containing the separator.
   */
  function Split(s: string, sep: char): (pieces: seq<string>)
    ensures |pieces| >= 1
    ensures |pieces| == 1 <==> sep !in s
    ensures forall k :: 0 <= k < |pieces| ==> sep !in pieces[k]
    decreases |s|
  {
    if s == [] then [""]
    else
      var rest := Split(s[1..], sep);
      if s[0] == sep then [""] + rest
      else [[s[0]] + rest[0]] + rest[1..]
  }

  /** `pieces.join(sep)`, the inverse of `Split`. */
  function Join(pieces: seq<string>, sep: char): string
    requires |pieces| >= 1
  {
    if |pieces| == 1 then pieces[0] else pieces[0] + [sep] + Join(pieces[1..], sep)
  }

  /** Joining the pieces back with the separator restores the string. */
  lemma {:induction false} JoinSplit(s: string, sep: char)
    ensures Join(Split(s, sep), sep) == s
    decreases |s|
  {
    if s != [] {
      JoinSplit(s[1..], sep);
      var rest := Split(s[1..], sep);
      var pieces := Split(s, sep);
      assert s == [s[0]] + s[1..];
      if s[0] == sep {
        assert pieces == [""] + rest;
        assert pieces[1..] == rest;
        assert Join(pieces, sep) == "" + [sep] + Join(rest, sep);
      } else if |rest| == 1 {
        assert pieces == [[s[0]] + rest[0]];
      } else {
        assert pieces == [[s[0]] + rest[0]] + rest[1..];
        assert pieces[1..] == rest[1..];
        assert Join(pieces, sep) == [s[0]] + rest[0] + [sep] + Join(rest[1..], sep);
        assert Join(rest, sep) == rest[0] + [sep] + Join(rest[1..], sep);
      }
    }
  }

  /** A piece without separator, the separator, then the rest: the first piece is split off. */
  lemma {:induction false} SplitAtFirst(a: string, b: string, sep: char)
    requires sep !in a
    ensures Split(a + [sep] + b, sep) == [a] + Split(b, sep)
    decreases |a|
  {
    if a == [] {
      assert a + [sep] + b == [sep] + b;
    } else {
      assert (a + [sep] + b)[1..] == a[1..] + [sep] + b;
      SplitAtFirst(a[1..], b, sep);
      assert [a[0]] + a[1..] == a;
    }
  }

  /** `fileToGenerativePart`'s `split(',')[1]`: absent when there is no comma. */
  function Payload(dataUrl: string): (p: Option<string>)
    ensures p.Some? <==> ',' in dataUrl
    ensures p.Some? ==> ',' !in p.value
  {
    var pieces := Split(dataUrl, ',');
    if |pieces| > 1 then Some(pieces[1]) else None
  }

  /** The payload is the text between the first comma and the second one, or the end. */
  lemma PayloadBetweenFirstCommas(a: string, b: string, c: string)
    requires ',' !in a && ',' !in b
    requires c == [] || c[0] == ','
    ensures Payload(a + [','] + b + c) == Some(b)
  {
    assert a + [','] + b + c == a + [','] + (b + c);
    SplitAtFirst(a, b + c, ',');
    if c != [] {
      assert b + c == b + [','] + c[1..];
      SplitAtFirst(b, c[1..], ',');
      assert Split(b + c, ',')[0] == b;
    } else {
      assert b + c == b;
      JoinSplit(b, ',');
    }
  }

  /** The characters of standard base64 text; none of them is a comma. */
  predicate IsBase64Char(ch: char) {
    'A' <= ch <= 'Z' || 'a' <= ch <= 'z' || '0' <= ch <= '9' || ch == '+' || ch == '/' || ch == '='
  }

  /** The header the reader writes before the payload. */
  function DataUrlOf(mimeType: string, payload: string): string {
    "data:" + mimeType + ";base64," + payload
  }

  /** A reader's data URL gives back exactly its base64 payload. */
  lemma PayloadOfDataUrl(mimeType: string, payload: string)
    requires ',' !in mimeType
    requires forall i :: 0 <= i < |payload| ==> IsBase64Char(payload[i])
    ensures Payload(DataUrlOf(mimeType, payload)) == Some(payload)
  {
    var header := "data:" + mimeType + ";base64";
    assert ',' !in header by {
      assert header == "data:" + (mimeType + ";base64");
    }
    assert DataUrlOf(mimeType, payload) == header + [','] + payload + [];
    PayloadBetweenFirstCommas(header, payload, []);
  }
}
