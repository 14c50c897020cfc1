/** The two string operations the report code applies to cell text:
    Python's whitespace split (first field only) and display-name truncation. */
module Text {
  import opened Tables

  /** Python's str.isspace for one character. */
  predicate IsSpace(c: char) {
    || '\U{9}' <= c <= '\U{D}'
    || '\U{1C}' <= c <= '\U{20}'
    || c == '\U{85}' || c == '\U{A0}' || c == '\U{1680}'
    || '\U{2000}' <= c <= '\U{200A}'
    || c == '\U{2028}' || c == '\U{2029}' || c == '\U{202F}' || c == '\U{205F}'
    || c == '\U{3000}'
  }

  predicate AllSpace(s: string) {
    forall i :: 0 <= i < |s| ==> IsSpace(s[i])
  }

  predicate NoSpace(s: string) {
    forall i :: 0 <= i < |s| ==> !IsSpace(s[i])
  }

  /** Length of the longest prefix of `s` made only of whitespace. */
  function LeadingSpace(s: string): (k: nat)
    ensures k <= |s| && AllSpace(s[..k])
    ensures k < |s| ==> !IsSpace(s[k])
  {
    if s == [] || !IsSpace(s[0]) then 0 else 1 + LeadingSpace(s[1..])
  }

  /** Length of the longest prefix of `s` free of whitespace. */
  function FieldLength(s: string): (k: nat)
    ensures k <= |s| && NoSpace(s[..k])
    ensures k < |s| ==> IsSpace(s[k])
  {
    if s == [] || IsSpace(s[0]) then 0 else 1 + FieldLength(s[1..])
  }

  /** `s.split()[0]` (utils.py:350): the first maximal run of non-whitespace
      characters. None when `s` has no such run, where pandas yields NaN. */
  function FirstField(s: string): (r: Option<string>)
    ensures r.None? <==> AllSpace(s)
    ensures r.Some? ==> r.value != [] && NoSpace(r.value)
    ensures r.Some? ==>
      exists k :: 0 <= k <= |s| - |r.value| && AllSpace(s[..k]) && s[k..k + |r.value|] == r.value
        && (k + |r.value| == |s| || IsSpace(s[k + |r.value|]))
  {
    var k := LeadingSpace(s);
    if k == |s| then
      None
    else
      var n := FieldLength(s[k..]);
      assert s[k..][..n] == s[k..k + n];
      Some(s[k..k + n])
  }

  lemma {:induction false} FieldLengthOfField(d: string, rest: string)
    requires NoSpace(d)
    requires rest == [] || IsSpace(rest[0])
    ensures FieldLength(d + rest) == |d|
  {
    if d != [] {
      assert (d + rest)[1..] == d[1..] + rest;
      FieldLengthOfField(d[1..], rest);
    }
  }

  /** A stored date such as "2024-05-01" or "2024-05-01 09:30:00" reduces to
      its date part: a field followed by nothing or by whitespace is the
      first field. */
  lemma {:induction false} FirstFieldOfStamp(d: string, rest: string)
    requires d != [] && NoSpace(d)
    requires rest == [] || IsSpace(rest[0])
    ensures FirstField(d + rest) == Some(d)
  {
    FieldLengthOfField(d, rest);
    assert (d + rest)[0..] == d + rest;
    assert (d + rest)[0..|d|] == d;
  }

  /** Name-column widths of the two reports (utils.py:292, 329, 439). */
  const ProductNameLimit: nat := 25
  const InventoryNameLimit: nat := 35
  const EquipNameLimit: nat := 18

  /** A name longer than `limit` keeps its first limit-1 characters and gains "..". */
  function Truncate(s: string, limit: nat): (r: string)
    requires limit >= 1
    ensures |s| <= limit ==> r == s
    ensures |s| > limit ==> |r| == limit + 1 && r[..limit - 1] == s[..limit - 1] && r[limit - 1..] == ".."
    ensures |r| <= limit + 1
  {
    if |s| > limit then s[..limit - 1] + ".." else s
  }

  /** Truncating twice is truncating once: a truncated name is exactly one
      character too long and truncates to itself. */
  lemma TruncateIdempotent(s: string, limit: nat)
    requires limit >= 1
    ensures Truncate(Truncate(s, limit), limit) == Truncate(s, limit)
  {
    var r := Truncate(s, limit);
    if |s| > limit {
      assert r[..limit - 1] + ".." == r;
    }
  }
}
