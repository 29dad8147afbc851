/** URL text: percent-encoding (`encodeURIComponent` and the form encoding of
 *  `URLSearchParams`), JSON text for a header record (`JSON.stringify`), and the
 *  resolution of a URI reference against a base URL (`new URL(ref, base)`, RFC 3986
 *  section 5.2) in the simplified form described on `Resolve`. */
module Urls {

  import opened Wrappers
  import opened Strings

  // ---------------------------------------------------------------------------
  // Percent-encoding
  // ---------------------------------------------------------------------------

  /** Characters `encodeURIComponent` leaves alone. */
  predicate IsUriUnreserved(c: char)
  {
    IsAsciiLetter(c) || IsDigit(c)
    || c == '-' || c == '_' || c == '.' || c == '!' || c == '~' || c == '*'
    || c == '\'' || c == '(' || c == ')'
  }

  /** Characters the `application/x-www-form-urlencoded` serializer leaves alone. */
  predicate IsFormUnreserved(c: char)
  {
    IsAsciiLetter(c) || IsDigit(c) || c == '*' || c == '-' || c == '.' || c == '_'
  }

  /** The UTF-8 encoding of one Unicode scalar value. */
  function Utf8(c: char): (bytes: seq<nat>)
    ensures 1 <= |bytes| <= 4 && forall i :: 0 <= i < |bytes| ==> bytes[i] < 256
  {
    var v := c as int;
    if v < 0x80 then [v]
    else if v < 0x800 then [0xC0 + v / 64, 0x80 + v % 64]
    else if v < 0x10000 then [0xE0 + v / 4096, 0x80 + (v / 64) % 64, 0x80 + v % 64]
    else [0xF0 + v / 262144, 0x80 + (v / 4096) % 64, 0x80 + (v / 64) % 64, 0x80 + v % 64]
  }

  function HexDigit(d: nat): (c: char)
    requires d < 16
    ensures IsDigit(c) || ('A' <= c <= 'F')
  {
    if d < 10 then DigitChar(d) else ('A' as int + d - 10) as char
  }

  /** `%XX` for every byte, upper-case hexadecimal. */
  function PercentBytes(bytes: seq<nat>): (r: string)
    requires forall i :: 0 <= i < |bytes| ==> bytes[i] < 256
    ensures forall i :: 0 <= i < |r| ==> r[i] == '%' || IsDigit(r[i]) || ('A' <= r[i] <= 'F')
    decreases |bytes|
  {
    if bytes == [] then ""
    else ['%', HexDigit(bytes[0] / 16), HexDigit(bytes[0] % 16)] + PercentBytes(bytes[1..])
  }

  /** Percent-encoding of a string: characters in `keep` stay, a space becomes `+` when
   *  `plusForSpace`, every other character becomes the `%XX` form of its UTF-8 bytes. */
  function PercentEncode(s: string, keep: char -> bool, plusForSpace: bool): (r: string)
    ensures forall i :: 0 <= i < |r| ==>
      keep(r[i]) || r[i] == '%' || (plusForSpace && r[i] == '+') || IsDigit(r[i]) || ('A' <= r[i] <= 'F')
    decreases |s|
  {
    if s == [] then ""
    else
      var head :=
        if keep(s[0]) then [s[0]]
        else if plusForSpace && s[0] == ' ' then "+"
        else PercentBytes(Utf8(s[0]));
      head + PercentEncode(s[1..], keep, plusForSpace)
  }

  /** `encodeURIComponent(s)`. */
  function EncodeComponent(s: string): string
  {
    PercentEncode(s, IsUriUnreserved, false)
  }

  /** The form encoding `URLSearchParams` uses for names and values. */
  function FormEncode(s: string): string
  {
    PercentEncode(s, IsFormUnreserved, true)
  }

  /** The output of `encodeURIComponent` holds only unreserved characters and `%`, so it
   *  never holds a query delimiter (`&`, `=`, `?`, `#`), a slash or a line break. */
  lemma EncodeComponentIsQuerySafe(s: string)
    ensures forall i :: 0 <= i < |EncodeComponent(s)| ==>
      IsUriUnreserved(EncodeComponent(s)[i]) || EncodeComponent(s)[i] == '%'
    ensures '&' !in EncodeComponent(s) && '=' !in EncodeComponent(s) && '\n' !in EncodeComponent(s)
  {
    var r := EncodeComponent(s);
    forall i | 0 <= i < |r|
      ensures IsUriUnreserved(r[i]) || r[i] == '%'
    {
    }
  }

  /** A string of unreserved characters is its own encoding. */
  lemma {:induction false} EncodeComponentOfUnreserved(s: string)
    requires forall i :: 0 <= i < |s| ==> IsUriUnreserved(s[i])
    ensures EncodeComponent(s) == s
    decreases |s|
  {
    if s != [] {
      EncodeComponentOfUnreserved(s[1..]);
    }
  }

  lemma FormEncodeIsQuerySafe(s: string)
    ensures '&' !in FormEncode(s) && '=' !in FormEncode(s) && '\n' !in FormEncode(s)
  {
    var r := FormEncode(s);
    forall i | 0 <= i < |r|
      ensures r[i] != '&' && r[i] != '=' && r[i] != '\n'
    {
    }
  }

  // ---------------------------------------------------------------------------
  // JSON text of a header record
  // ---------------------------------------------------------------------------

  /** A string-to-string record (`Record<string, string>`) in insertion order. */
  type Headers = seq<(string, string)>

  function JsonEscapeChar(c: char): string
  {
    if c == '"' then "\\\""
    else if c == '\\' then "\\\\"
    else if c == '\n' then "\\n"
    else if c == '\r' then "\\r"
    else if c == '\t' then "\\t"
    else if c == '\U{0008}' then "\\b"
    else if c == '\U{000C}' then "\\f"
    else if (c as int) < 0x20 then
      "\\u00" + [if (c as int) < 16 then '0' else '1'] + [LowerHexDigit((c as int) % 16)]
    else [c]
  }

  function LowerHexDigit(d: nat): char
    requires d < 16
  {
    if d < 10 then DigitChar(d) else ('a' as int + d - 10) as char
  }

  function JsonEscape(s: string): string
    decreases |s|
  {
    if s == [] then "" else JsonEscapeChar(s[0]) + JsonEscape(s[1..])
  }

  /** A character `JSON.stringify` writes as it is. */
  predicate IsJsonPlain(c: char) { c != '"' && c != '\\' && (c as int) >= 0x20 }

  /** A string of plain characters needs no escape. */
  lemma {:induction false} JsonEscapePlain(s: string)
    requires forall i :: 0 <= i < |s| ==> IsJsonPlain(s[i])
    ensures JsonEscape(s) == s
    decreases |s|
  {
    if s != [] {
      JsonEscapePlain(s[1..]);
    }
  }

  /** `JSON.stringify` of one string. */
  function JsonString(s: string): string
  {
    "\"" + JsonEscape(s) + "\""
  }

  function JsonMembers(h: Headers): string
    decreases |h|
  {
    if h == [] then ""
    else
      var member := JsonString(h[0].0) + ":" + JsonString(h[0].1);
      if |h| == 1 then member else member + "," + JsonMembers(h[1..])
  }

  /** `JSON.stringify` of a string-to-string record. */
  function JsonObject(h: Headers): string
  {
    "{" + JsonMembers(h) + "}"
  }

  // ---------------------------------------------------------------------------
  // Records (plain objects and query parameters)
  // ---------------------------------------------------------------------------

  /** The value stored under `key` in an object written as its key-value pairs in
   *  insertion order; also `URLSearchParams.get`, which answers the first pair. */
  function Get(obj: Headers, key: string): Option<string>
    decreases |obj|
  {
    if obj == [] then None
    else if obj[0].0 == key then Some(obj[0].1)
    else Get(obj[1..], key)
  }

  /** `obj[key] = value`: an existing key keeps its place, a new one goes last. */
  function Put(obj: Headers, key: string, value: string): (r: Headers)
    ensures Get(r, key) == Some(value)
    ensures forall k :: k != key ==> Get(r, k) == Get(obj, k)
    decreases |obj|
  {
    if obj == [] then [(key, value)]
    else if obj[0].0 == key then [(key, value)] + obj[1..]
    else [obj[0]] + Put(obj[1..], key, value)
  }

  /** `Object.assign(obj, source)` and `{...obj, ...source}`: every pair of `source` is
   *  stored, left to right. */
  function Assign(obj: Headers, source: Headers): Headers
    decreases |source|
  {
    if source == [] then obj
    else Assign(Put(obj, source[0].0, source[0].1), source[1..])
  }

  /** The last value `pairs` give to `key`. */
  function LastValue(pairs: Headers, key: string): Option<string>
    decreases |pairs|
  {
    if pairs == [] then None
    else
      var later := LastValue(pairs[1..], key);
      if later.Some? then later
      else if pairs[0].0 == key then Some(pairs[0].1)
      else None
  }

  /** After an assignment a key holds the last value the source gives it, and keeps its
   *  old value when the source does not name it. */
  lemma {:induction false} AssignGet(obj: Headers, source: Headers, key: string)
    ensures Get(Assign(obj, source), key)
      == if LastValue(source, key).Some? then LastValue(source, key) else Get(obj, key)
    decreases |source|
  {
    if source != [] {
      AssignGet(Put(obj, source[0].0, source[0].1), source[1..], key);
    }
  }

  // ---------------------------------------------------------------------------
  // Resolution of references
  // ---------------------------------------------------------------------------

  predicate IsHttpUrl(s: string)
  {
    StartsWith(s, "http://") || StartsWith(s, "https://")
  }

  predicate IsSchemeChar(c: char)
  {
    IsAsciiLetter(c) || IsDigit(c) || c == '+' || c == '-' || c == '.'
  }

  predicate SchemeTail(s: string)
    decreases |s|
  {
    |s| > 0 && (s[0] == ':' || (IsSchemeChar(s[0]) && SchemeTail(s[1..])))
  }

  /** The reference starts with a scheme (`letter *(letter / digit / + / - / .) ":"`),
   *  which makes it absolute (RFC 3986 section 3.1). */
  predicate HasScheme(s: string)
  {
    |s| > 0 && IsAsciiLetter(s[0]) && SchemeTail(s[1..])
  }

  lemma NoColonNoScheme(s: string)
    requires ':' !in s
    ensures !HasScheme(s)
  {
    if |s| > 0 {
      NoColonNoSchemeTail(s[1..]);
    }
  }

  lemma {:induction false} NoColonNoSchemeTail(s: string)
    requires ':' !in s
    ensures !SchemeTail(s)
    decreases |s|
  {
    if |s| > 0 {
      NoColonNoSchemeTail(s[1..]);
    }
  }

  lemma HttpUrlHasScheme(s: string)
    requires IsHttpUrl(s)
    ensures HasScheme(s)
  {
    if StartsWith(s, "https://") {
      assert s[..8] == "https://";
      assert s[1..][..4] == "ttps" && s[5] == ':';
      assert SchemeTail(s[5..]);
      assert SchemeTail(s[4..]);
      assert SchemeTail(s[3..]);
      assert SchemeTail(s[2..]);
    } else {
      assert s[..7] == "http://";
      assert SchemeTail(s[4..]);
      assert SchemeTail(s[3..]);
      assert SchemeTail(s[2..]);
    }
  }

  /** Length of the scheme and `//` of an http(s) URL. */
  function AuthorityStart(base: string): (k: nat)
    requires IsHttpUrl(base)
    ensures k <= |base|
  {
    if StartsWith(base, "https://") then 8 else 7
  }

  /** The first index at or after `i` whose character satisfies `stop`, or `|s|`. */
  function FindFrom(s: string, i: nat, stop: char -> bool): (r: nat)
    requires i <= |s|
    ensures i <= r <= |s|
    ensures r < |s| ==> stop(s[r])
    ensures forall j :: i <= j < r ==> !stop(s[j])
    decreases |s| - i
  {
    if i == |s| || stop(s[i]) then i else FindFrom(s, i + 1, stop)
  }

  /** `FindFrom` is the first stop at or after `i`. */
  lemma FindFromUnique(s: string, i: nat, stop: char -> bool, r: nat)
    requires i <= r <= |s|
    requires r < |s| ==> stop(s[r])
    requires forall j :: i <= j < r ==> !stop(s[j])
    ensures FindFrom(s, i, stop) == r
  {
  }

  predicate EndsAuthority(c: char) { c == '/' || c == '?' || c == '#' }

  predicate StartsQueryOrFragment(c: char) { c == '?' || c == '#' }

  /** `scheme://host[:port]` of an http(s) URL. */
  function Origin(base: string): (r: string)
    requires IsHttpUrl(base)
    ensures StartsWith(base, r) && AuthorityStart(base) <= |r|
  {
    base[..FindFrom(base, AuthorityStart(base), EndsAuthority)]
  }

  /** `http:` or `https:`. */
  function SchemeOf(base: string): (r: string)
    requires IsHttpUrl(base)
    ensures StartsWith(base, r)
  {
    if StartsWith(base, "https://") then "https:" else "http:"
  }

  /** The base URL without its query and fragment, cut after the last `/` of its path;
   *  an http(s) URL without a path has the directory `origin + "/"`. */
  function Directory(base: string): (r: string)
    requires IsHttpUrl(base)
    ensures |r| > 0 && r[|r| - 1] == '/'
    ensures StartsWith(r, Origin(base))
  {
    var p := base[..FindFrom(base, 0, StartsQueryOrFragment)];
    var k := FindFrom(base, AuthorityStart(base), EndsAuthority);
    var last := LastIndexOf(p, '/');
    if last >= k then
      CutPrefix(base, |p|, k, last);
      p[..last + 1]
    else
      OriginSlash(base);
      Origin(base) + "/"
  }

  /** The directory holds only characters of the base and `/`. */
  lemma DirectoryChars(base: string)
    requires IsHttpUrl(base)
    ensures forall i :: 0 <= i < |Directory(base)| ==> Directory(base)[i] in base || Directory(base)[i] == '/'
  {
    var p := base[..FindFrom(base, 0, StartsQueryOrFragment)];
    var k := FindFrom(base, AuthorityStart(base), EndsAuthority);
    var last := LastIndexOf(p, '/');
    if last >= k {
      CutPrefix(base, |p|, k, last);
    } else {
      OriginSlash(base);
    }
  }

  /** Cutting the path after a `/` at or beyond the end of the authority keeps the
   *  origin and only characters of the base. */
  lemma CutPrefix(base: string, q: nat, k: nat, last: nat)
    requires k <= last < q <= |base| && base[..q][last] == '/'
    ensures var r := base[..q][..last + 1];
      |r| > 0 && r[|r| - 1] == '/' && r[..k] == base[..k]
      && forall i :: 0 <= i < |r| ==> r[i] in base
  {
    var r := base[..q][..last + 1];
    assert r == base[..last + 1];
    forall i | 0 <= i < |r| ensures r[i] in base {
      assert r[i] == base[i];
    }
  }

  /** The origin followed by `/` starts with the origin and holds only characters of
   *  the base and `/`. */
  lemma OriginSlash(base: string)
    requires IsHttpUrl(base)
    ensures var o := Origin(base); var r := o + "/";
      r[..|o|] == o && forall i :: 0 <= i < |r| ==> r[i] in base || r[i] == '/'
  {
    var o := Origin(base);
    var r := o + "/";
    assert r[..|o|] == o;
    forall i | 0 <= i < |r| ensures r[i] in base || r[i] == '/' {
      if i < |o| {
        assert r[i] == o[i] == base[i];
      }
    }
  }

  /** `new URL(ref, base)`, simplified: a reference with a scheme is already absolute; a
   *  base that is not an http(s) URL makes the constructor throw (`None`); otherwise a
   *  reference starting with `//` takes the base's scheme, one starting with `/` the
   *  base's origin, and any other is appended to the base's directory. Dot segments are
   *  not removed and no part is normalised. */
  function Resolve(ref: string, base: string): (r: Option<string>)
    ensures HasScheme(ref) ==> r == Some(ref)
    ensures !HasScheme(ref) ==> (r.Some? <==> IsHttpUrl(base))
  {
    if HasScheme(ref) then Some(ref)
    else if !IsHttpUrl(base) then None
    else if StartsWith(ref, "//") then Some(SchemeOf(base) + ref)
    else if StartsWith(ref, "/") then Some(Origin(base) + ref)
    else Some(Directory(base) + ref)
  }

  /** A relative reference resolves to an http(s) URL with the base's scheme that ends
   *  with the reference itself. */
  lemma ResolveRelative(ref: string, base: string)
    requires IsHttpUrl(base) && !HasScheme(ref)
    ensures Resolve(ref, base).Some?
    ensures IsHttpUrl(Resolve(ref, base).value)
    ensures StartsWith(Resolve(ref, base).value, SchemeOf(base))
    ensures EndsWith(Resolve(ref, base).value, ref)
  {
    if StartsWith(ref, "//") {
      SchemeRelative(ref, base);
    } else if StartsWith(ref, "/") {
      KeepsBaseScheme(Origin(base), ref, base);
    } else {
      KeepsBaseScheme(Directory(base), ref, base);
    }
  }

  /** `//host/path` takes the base's scheme. */
  lemma SchemeRelative(ref: string, base: string)
    requires IsHttpUrl(base) && StartsWith(ref, "//")
    ensures var r := SchemeOf(base) + ref;
      IsHttpUrl(r) && StartsWith(r, SchemeOf(base)) && EndsWith(r, ref)
  {
    var r := SchemeOf(base) + ref;
    assert r[|r| - |ref|..] == ref;
    assert ref[..2] == "//";
    if StartsWith(base, "https://") {
      assert r[..6] == "https:";
      assert r[..8] == "https://";
    } else {
      assert r[..5] == "http:";
      assert r[..7] == "http://";
    }
  }

  /** A prefix that begins with the base's scheme and `//` gives an http(s) URL of that
   *  scheme ending in the reference. */
  lemma KeepsBaseScheme(pre: string, ref: string, base: string)
    requires IsHttpUrl(base) && StartsWith(pre, Origin(base))
    ensures var r := pre + ref;
      IsHttpUrl(r) && StartsWith(r, SchemeOf(base)) && EndsWith(r, ref)
  {
    var r := pre + ref;
    var k := AuthorityStart(base);
    var o := Origin(base);
    assert r[|r| - |ref|..] == ref;
    assert r[..k] == pre[..k] == o[..k] == base[..k];
    if StartsWith(base, "https://") {
      assert base[..8] == "https://";
      assert r[..6] == base[..6];
    } else {
      assert base[..7] == "http://";
      assert r[..5] == base[..5];
    }
  }

  /** Resolving an already resolved reference against the same base changes nothing. */
  lemma ResolveIdempotent(ref: string, base: string)
    requires Resolve(ref, base).Some?
    ensures Resolve(Resolve(ref, base).value, base) == Resolve(ref, base)
  {
    if !HasScheme(ref) {
      ResolveRelative(ref, base);
      HttpUrlHasScheme(Resolve(ref, base).value);
    }
  }

  /** Every character of a resolved URL comes from the reference or the base, or is `/`. */
  lemma ResolveChars(ref: string, base: string)
    requires Resolve(ref, base).Some?
    ensures forall i :: 0 <= i < |Resolve(ref, base).value| ==>
      Resolve(ref, base).value[i] in ref || Resolve(ref, base).value[i] in base
      || Resolve(ref, base).value[i] == '/'
  {
    var r := Resolve(ref, base).value;
    if !HasScheme(ref) {
      var pre :=
        if StartsWith(ref, "//") then SchemeOf(base)
        else if StartsWith(ref, "/") then Origin(base)
        else Directory(base);
      assert r == pre + ref;
      if !StartsWith(ref, "/") {
        DirectoryChars(base);
      }
      forall i | 0 <= i < |pre| ensures pre[i] in base || pre[i] == '/' {
        if StartsWith(ref, "//") || StartsWith(ref, "/") {
          assert pre[i] == base[..|pre|][i];
        }
      }
    }
  }

  /** For `https://host/dir/file` without query or fragment, the directory is
   *  `https://host/dir/`. */
  lemma DirectoryOfPath(host: string, dir: string, file: string)
    requires forall i :: 0 <= i < |host| ==> !EndsAuthority(host[i])
    requires |dir| > 0 && dir[0] == '/' && dir[|dir| - 1] == '/'
    requires '?' !in dir && '#' !in dir
    requires '/' !in file && '?' !in file && '#' !in file
    ensures IsHttpUrl("https://" + host + dir + file)
    ensures Directory("https://" + host + dir + file) == "https://" + host + dir
  {
    var scheme := "https://";
    var base := scheme + host + dir + file;
    assert base[..8] == scheme;
    var q := FindFrom(base, 0, StartsQueryOrFragment);
    assert q == |base|;
    assert base[..|base|] == base;
    var h := 8 + |host|;
    assert base[h] == '/';
    var k := FindFrom(base, 8, EndsAuthority);
    assert k == h;
    var slash := h + |dir| - 1;
    assert base[slash] == '/' && base[slash + 1..] == file;
    var last := LastIndexOf(base, '/');
    assert last == slash;
    assert base[..slash + 1] == scheme + host + dir;
  }

  /** A path-relative reference against `https://host/dir/file` lands in `dir`: for
   *  example `seg1.ts` against `https://h.example/a/b/index.m3u8` gives
   *  `https://h.example/a/b/seg1.ts`. */
  lemma ResolveInDirectory(host: string, dir: string, file: string, ref: string)
    requires forall i :: 0 <= i < |host| ==> !EndsAuthority(host[i])
    requires |dir| > 0 && dir[0] == '/' && dir[|dir| - 1] == '/'
    requires '?' !in dir && '#' !in dir
    requires '/' !in file && '?' !in file && '#' !in file
    requires ':' !in ref && |ref| > 0 && ref[0] != '/'
    ensures Resolve(ref, "https://" + host + dir + file) == Some("https://" + host + dir + ref)
  {
    var base := "https://" + host + dir + file;
    NoColonNoScheme(ref);
    DirectoryOfPath(host, dir, file);
    ResolveIntoDirectory(ref, base);
  }

  /** A reference without a scheme and not starting with `/` is appended to the base's
   *  directory. */
  lemma ResolveIntoDirectory(ref: string, base: string)
    requires IsHttpUrl(base) && !HasScheme(ref) && |ref| > 0 && ref[0] != '/'
    ensures Resolve(ref, base) == Some(Directory(base) + ref)
  {
  }
}
