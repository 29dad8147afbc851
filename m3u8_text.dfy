/** Matching of the `URI="..."` attribute of an M3U8 tag line (RFC 8216 section 4.2),
 *  as the regular expression `URI="([^"]+)"` finds it, with or without the `i` flag.
 *  Both the downloader (`match`, first occurrence) and the proxy (`replace` with the
 *  `g` flag, every occurrence) use it. */
module M3u8Text {

  import opened Wrappers
  import opened Strings
  import opened Urls

  const URI_OPEN: string := "URI=\""

  predicate IsQuote(c: char) { c == '"' }

  /** The five characters at `i` read `URI="`, exactly or up to ASCII case. */
  predicate OpensUriAt(s: string, i: nat, ignoreCase: bool)
  {
    i + 5 <= |s|
    && (if ignoreCase
        then LowerChar(s[i]) == 'u' && LowerChar(s[i + 1]) == 'r' && LowerChar(s[i + 2]) == 'i'
        else s[i] == 'U' && s[i + 1] == 'R' && s[i + 2] == 'I')
    && s[i + 3] == '=' && s[i + 4] == '"'
  }

  /** The index of the quote that closes a value opened at `i`, or `|s|` if none does. */
  function CloseQuote(s: string, i: nat): (q: nat)
    requires i + 5 <= |s|
    ensures i + 5 <= q <= |s|
    ensures q < |s| ==> s[q] == '"'
    ensures forall j :: i + 5 <= j < q ==> s[j] != '"'
  {
    FindFrom(s, i + 5, IsQuote)
  }

  /** `URI="([^"]+)"` matches at index `i`: the opening text, at least one character
   *  that is not a quote, and the closing quote. Since `[^"]+` cannot cross a quote, the
   *  match at `i` ends at the first quote after the opening text. */
  predicate UriMatchAt(s: string, i: nat, ignoreCase: bool)
  {
    OpensUriAt(s, i, ignoreCase) && i + 5 < CloseQuote(s, i) < |s|
  }

  /** The captured value of the match at `i`. */
  function UriValueAt(s: string, i: nat, ignoreCase: bool): (v: string)
    requires UriMatchAt(s, i, ignoreCase)
    ensures |v| > 0 && '"' !in v
    ensures i + 5 + |v| < |s| && v == s[i + 5..i + 5 + |v|] && s[i + 5 + |v|] == '"'
  {
    s[i + 5..CloseQuote(s, i)]
  }

  /** The leftmost match at or after `i`, as a regular expression search finds it. */
  function FirstUriMatch(s: string, i: nat, ignoreCase: bool): (r: Option<nat>)
    requires i <= |s|
    ensures r.Some? ==> i <= r.value < |s| && UriMatchAt(s, r.value, ignoreCase)
    ensures r.Some? ==> forall j :: i <= j < r.value ==> !UriMatchAt(s, j, ignoreCase)
    ensures r.None? ==> forall j :: i <= j <= |s| ==> !UriMatchAt(s, j, ignoreCase)
    decreases |s| - i
  {
    if i + 5 > |s| then None
    else if UriMatchAt(s, i, ignoreCase) then Some(i)
    else FirstUriMatch(s, i + 1, ignoreCase)
  }

  /** `s.match(/URI="([^"]+)"/i)?.[1]`: the value of the leftmost match, if any. */
  function UriAttribute(s: string): (r: Option<string>)
    ensures r.Some? ==> |r.value| > 0 && '"' !in r.value
  {
    match FirstUriMatch(s, 0, true)
    case None => None
    case Some(i) => Some(UriValueAt(s, i, true))
  }

  /** The attribute is missing exactly when the pattern matches nowhere, and otherwise it
   *  is the value of a match that has no match to its left. */
  lemma UriAttributeIsLeftmost(s: string)
    ensures UriAttribute(s).None? <==> forall j :: 0 <= j <= |s| ==> !UriMatchAt(s, j, true)
    ensures UriAttribute(s).Some? ==>
      exists i :: 0 <= i < |s| && UriMatchAt(s, i, true)
                  && UriAttribute(s).value == UriValueAt(s, i, true)
                  && (forall j :: 0 <= j < i ==> !UriMatchAt(s, j, true))
  {
  }

  /** `s.slice(i).replace(/URI="([^"]+)"/g, (_, uri) => f(uri))`: every match, scanned
   *  left to right and not overlapping, is replaced by `f` of its value; the text
   *  between matches is copied. */
  function ReplaceUris(s: string, i: nat, f: string -> string): string
    requires i <= |s|
    decreases |s| - i
  {
    if i == |s| then ""
    else if UriMatchAt(s, i, false) then
      var q := CloseQuote(s, i);
      f(s[i + 5..q]) + ReplaceUris(s, q + 1, f)
    else [s[i]] + ReplaceUris(s, i + 1, f)
  }

  /** A replacement that puts every matched attribute back as it was (`URI="` + value
   *  + `"`) leaves the text unchanged. */
  predicate KeepsMatchesFrom(s: string, i: nat, f: string -> string)
  {
    forall j :: i <= j < |s| && UriMatchAt(s, j, false) ==>
      f(UriValueAt(s, j, false)) == URI_OPEN + UriValueAt(s, j, false) + "\""
  }

  lemma {:induction false} ReplaceUrisKeeping(s: string, i: nat, f: string -> string)
    requires i <= |s|
    requires KeepsMatchesFrom(s, i, f)
    ensures ReplaceUris(s, i, f) == s[i..]
    decreases |s| - i
  {
    if i < |s| {
      var n := ScanNext(s, i);
      KeepsMatchesLater(s, i, n, f);
      ReplaceUrisKeeping(s, n, f);
      KeepingStep(s, i, f);
    }
  }

  /** Where the scan of `ReplaceUris` goes on after position `i`: past the closing quote
   *  of a match, else to the next character. */
  function ScanNext(s: string, i: nat): (n: nat)
    requires i < |s|
    ensures i < n <= |s|
  {
    if UriMatchAt(s, i, false) then CloseQuote(s, i) + 1 else i + 1
  }

  /** One scan step of a replacement that keeps every match. */
  lemma KeepingStep(s: string, i: nat, f: string -> string)
    requires i < |s| && KeepsMatchesFrom(s, i, f)
    requires ReplaceUris(s, ScanNext(s, i), f) == s[ScanNext(s, i)..]
    ensures ReplaceUris(s, i, f) == s[i..]
  {
    if UriMatchAt(s, i, false) {
      KeptMatchStep(s, i, f);
    } else {
      CopiedStep(s, i, f);
    }
  }

  /** A kept match followed by an unchanged rest leaves the text from `i` unchanged. */
  lemma KeptMatchStep(s: string, i: nat, f: string -> string)
    requires UriMatchAt(s, i, false)
    requires f(UriValueAt(s, i, false)) == URI_OPEN + UriValueAt(s, i, false) + "\""
    requires ReplaceUris(s, CloseQuote(s, i) + 1, f) == s[CloseQuote(s, i) + 1..]
    ensures ReplaceUris(s, i, f) == s[i..]
  {
    KeptMatch(s, i, f);
  }

  /** A copied character followed by an unchanged rest leaves the text from `i`
   *  unchanged. */
  lemma CopiedStep(s: string, i: nat, f: string -> string)
    requires i < |s| && !UriMatchAt(s, i, false)
    requires ReplaceUris(s, i + 1, f) == s[i + 1..]
    ensures ReplaceUris(s, i, f) == s[i..]
  {
    assert s[i..] == [s[i]] + s[i + 1..];
  }

  lemma KeepsMatchesLater(s: string, i: nat, k: nat, f: string -> string)
    requires i <= k && KeepsMatchesFrom(s, i, f)
    ensures KeepsMatchesFrom(s, k, f)
  {
  }

  /** A kept match reproduces its own text. */
  lemma KeptMatch(s: string, i: nat, f: string -> string)
    requires UriMatchAt(s, i, false)
    requires f(UriValueAt(s, i, false)) == URI_OPEN + UriValueAt(s, i, false) + "\""
    ensures var q := CloseQuote(s, i); f(s[i + 5..q]) + s[q + 1..] == s[i..]
  {
    var q := CloseQuote(s, i);
    var v := s[i + 5..q];
    assert s[i..i + 5] == URI_OPEN;
    assert s[i..] == s[i..i + 5] + v + [s[q]] + s[q + 1..];
  }

  /** A character that is neither in the text nor in any replacement is not in the
   *  result. */
  lemma {:induction false} ReplaceUrisAvoids(s: string, i: nat, f: string -> string, c: char)
    requires i <= |s|
    requires forall j :: i <= j < |s| ==> s[j] != c
    requires forall j :: i <= j < |s| && UriMatchAt(s, j, false) ==> c !in f(UriValueAt(s, j, false))
    ensures c !in ReplaceUris(s, i, f)
    decreases |s| - i
  {
    if i < |s| {
      if UriMatchAt(s, i, false) {
        ReplaceUrisAvoids(s, CloseQuote(s, i) + 1, f, c);
      } else {
        ReplaceUrisAvoids(s, i + 1, f, c);
      }
    }
  }

  /** Text without any match is copied unchanged. */
  lemma ReplaceUrisNoMatch(s: string, f: string -> string)
    requires forall j :: 0 <= j < |s| ==> !UriMatchAt(s, j, false)
    ensures ReplaceUris(s, 0, f) == s
  {
    ReplaceUrisKeeping(s, 0, f);
  }
}
