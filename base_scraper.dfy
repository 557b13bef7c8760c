/**
 * `WebScraper.load_sources`: reads a list of source lines, skips blank lines
 * and `#` comments, and groups the remaining URLs by a key derived from the
 * URL's host, keeping the dictionary's insertion order. The file is given as
 * its sequence of lines.
 */
module Scrapers {

  import opened Wrappers

  /** Python's `str.isspace`: the characters `str.strip()` removes when given no argument. */
  predicate IsSpace(c: char)
  {
    || c == ' ' || ('\t' <= c <= '\r') || ('\U{1C}' <= c <= '\U{1F}')
    || c == '\U{85}' || c == '\U{A0}' || c == '\U{1680}' || ('\U{2000}' <= c <= '\U{200A}')
    || c == '\U{2028}' || c == '\U{2029}' || c == '\U{202F}' || c == '\U{205F}' || c == '\U{3000}'
  }

  /** Space, tab, carriage return and line feed are whitespace; '#' and the characters that shape a URL are not. */
  lemma SpaceCharacters(c: char)
    ensures c == ' ' || c == '\t' || c == '\n' || c == '\r' ==> IsSpace(c)
    ensures IsSpace(c) ==> c != '#' && c != ':' && c != '/' && c != '.'
  {
  }

  /** `s.lstrip()`: `s` without its leading whitespace. */
  function TrimLeft(s: string): (r: string)
    ensures |r| <= |s| && r == s[|s| - |r|..]
    ensures forall k :: 0 <= k < |s| - |r| ==> IsSpace(s[k])
    ensures r != [] ==> !IsSpace(r[0])
  {
    if s != [] && IsSpace(s[0]) then
      var r := TrimLeft(s[1..]);
      assert forall k :: 1 <= k < |s| ==> s[k] == s[1..][k - 1];
      assert s[1..][|s| - 1 - |r|..] == s[|s| - |r|..];
      r
    else s
  }

  /** `s.rstrip()`: `s` without its trailing whitespace. */
  function TrimRight(s: string): (r: string)
    ensures |r| <= |s| && r == s[..|r|]
    ensures forall k :: |r| <= k < |s| ==> IsSpace(s[k])
    ensures r != [] ==> !IsSpace(r[|r| - 1])
  {
    if s != [] && IsSpace(s[|s| - 1]) then TrimRight(s[..|s| - 1]) else s
  }

  /**
   * `s.strip()`: the part of `s` left once the whitespace at both ends is
   * gone. It neither starts nor ends with whitespace, and it is empty
   * exactly when `s` is all whitespace.
   */
  function Strip(s: string): (r: string)
    ensures r != [] ==> !IsSpace(r[0]) && !IsSpace(r[|r| - 1])
    ensures r == [] <==> forall k :: 0 <= k < |s| ==> IsSpace(s[k])
  {
    var t := TrimLeft(s);
    var r := TrimRight(t);
    assert r != [] ==> r[0] == t[0];
    assert r == [] ==> t == [];
    r
  }

  /** A prefix of a suffix of `s` is a slice of `s`. */
  lemma PrefixOfSuffix(s: string, t: string, r: string)
    requires |t| <= |s| && t == s[|s| - |t|..]
    requires |r| <= |t| && r == t[..|r|]
    ensures r == s[|s| - |t|..|s| - |t| + |r|]
  {
  }

  /** `r` sits in `s` at `lo`, and only whitespace follows it in `s`. */
  predicate SliceWithSpaceAfter(s: string, lo: nat, r: string)
  {
    && lo + |r| <= |s|
    && r == s[lo..lo + |r|]
    && forall k :: lo + |r| <= k < |s| ==> IsSpace(s[k])
  }

  /** What `Strip` keeps is a slice of `s`, starting where `TrimLeft` starts, with only whitespace after it. */
  lemma StripIsSlice(s: string)
    ensures SliceWithSpaceAfter(s, |s| - |TrimLeft(s)|, Strip(s))
  {
    var t := TrimLeft(s);
    var r := TrimRight(t);
    assert Strip(s) == r;
    SpaceAfterPrefix(s, t, r);
  }

  /**
   * A prefix `r` of a suffix `t` of `s`, followed in `t` by whitespace only, is a slice of `s`
   * followed in `s` by whitespace only.
   */
  lemma SpaceAfterPrefix(s: string, t: string, r: string)
    requires |t| <= |s| && t == s[|s| - |t|..]
    requires |r| <= |t| && r == t[..|r|]
    requires forall k :: |r| <= k < |t| ==> IsSpace(t[k])
    ensures SliceWithSpaceAfter(s, |s| - |t|, r)
  {
    PrefixOfSuffix(s, t, r);
    forall k | |s| - |t| + |r| <= k < |s|
      ensures IsSpace(s[k])
    {
      assert s[k] == t[k - (|s| - |t|)];
    }
  }

  /** Removing surrounding whitespace a second time changes nothing. */
  lemma StripIdempotent(s: string)
    ensures Strip(Strip(s)) == Strip(s)
  {
    var r := Strip(s);
    if r != [] {
      assert TrimLeft(r) == r;
      assert TrimRight(r) == r;
    }
  }

  /** `s.find(c)`: the first index holding `c`, or `|s|` when there is none. */
  function Find(s: string, c: char): (i: nat)
    ensures i <= |s|
    ensures i < |s| ==> s[i] == c
    ensures forall k :: 0 <= k < i ==> s[k] != c
  {
    if s == [] then 0
    else if s[0] == c then 0
    else 1 + Find(s[1..], c)
  }

  /** The characters `_WHATWG_C0_CONTROL_OR_SPACE`: the C0 controls and the space. */
  predicate IsC0OrSpace(c: char)
  {
    c <= ' '
  }

  /** `s.lstrip(_WHATWG_C0_CONTROL_OR_SPACE)`. */
  function LstripC0(s: string): (r: string)
    ensures |r| <= |s| && r == s[|s| - |r|..]
    ensures forall k :: 0 <= k < |s| - |r| ==> IsC0OrSpace(s[k])
    ensures r != [] ==> !IsC0OrSpace(r[0])
  {
    if s == [] || !IsC0OrSpace(s[0]) then s
    else LstripC0(s[1..])
  }

  /** The tab, carriage return and line feed, which `urlsplit` deletes wherever they occur. */
  predicate IsUnsafeByte(c: char)
  {
    c == '\t' || c == '\r' || c == '\n'
  }

  /** No tab, carriage return or line feed occurs in `s`. */
  predicate Safe(s: string)
  {
    forall k :: 0 <= k < |s| ==> !IsUnsafeByte(s[k])
  }

  /** `s` with every tab, carriage return and line feed deleted, the other characters kept in order. */
  function RemoveUnsafe(s: string): (r: string)
    ensures |r| <= |s|
    ensures Safe(r)
  {
    if s == [] then []
    else
      (if IsUnsafeByte(s[0]) then [] else [s[0]]) + RemoveUnsafe(s[1..])
  }

  predicate IsAsciiLetter(c: char)
  {
    'a' <= c <= 'z' || 'A' <= c <= 'Z'
  }

  /** `scheme_chars`: the characters a URL scheme may hold. */
  predicate IsSchemeChar(c: char)
  {
    IsAsciiLetter(c) || '0' <= c <= '9' || c == '+' || c == '-' || c == '.'
  }

  /** Whether `url[..i]`, with `i` the first ':', is taken as the scheme. */
  predicate HasScheme(url: string)
  {
    var i := Find(url, ':');
    0 < i < |url| && IsAsciiLetter(url[0])
    && forall k :: 0 <= k < i ==> IsSchemeChar(url[k])
  }

  /** What follows the scheme and its ':', or the whole URL when it has no scheme. */
  function AfterScheme(url: string): (rest: string)
    ensures |rest| <= |url| && rest == url[|url| - |rest|..]
    ensures !HasScheme(url) ==> rest == url
  {
    if HasScheme(url) then url[Find(url, ':') + 1..] else url
  }

  /** The characters that end a network location: `/`, `?` and `#`. */
  predicate IsNetlocDelimiter(c: char)
  {
    c == '/' || c == '?' || c == '#'
  }

  /** The end of the network location: the first '/', '?' or '#' at or after `start`, else `|s|`. */
  function NetlocEnd(s: string, start: nat): (e: nat)
    requires start <= |s|
    ensures start <= e <= |s|
    ensures forall k :: start <= k < e ==> !IsNetlocDelimiter(s[k])
    ensures e < |s| ==> IsNetlocDelimiter(s[e])
    decreases |s| - start
  {
    if start == |s| || IsNetlocDelimiter(s[start]) then start
    else NetlocEnd(s, start + 1)
  }

  /** The URL as `urlsplit` looks for the network location in it, its scheme taken off. */
  function Cleaned(url: string): (rest: string)
    ensures Safe(rest)
  {
    var safe := RemoveUnsafe(LstripC0(url));
    var rest := AfterScheme(safe);
    SuffixKeepsSafe(safe, rest);
    rest
  }

  /** Whether `s` starts with "//". */
  predicate StartsWithSlashes(s: string)
  {
    |s| >= 2 && s[0] == '/' && s[1] == '/'
  }

  /**
   * `urlparse(url).netloc`: after the scheme, the text that follows "//" up
   * to the first '/', '?' or '#'; the empty string when there is no "//".
   */
  function Netloc(url: string): (host: string)
    ensures Safe(host)
    ensures forall k :: 0 <= k < |host| ==> !IsNetlocDelimiter(host[k])
  {
    var rest := Cleaned(url);
    if StartsWithSlashes(rest) then
      var e := NetlocEnd(rest, 2);
      SliceKeepsSafe(rest, 2, e);
      SliceKeepsNoDelimiter(rest, 2, e);
      rest[2..e]
    else []
  }

  /** A suffix of a string without tabs, carriage returns or line feeds has none either. */
  lemma SuffixKeepsSafe(s: string, r: string)
    requires |r| <= |s| && r == s[|s| - |r|..] && Safe(s)
    ensures Safe(r)
  {
    assert forall k :: 0 <= k < |r| ==> r[k] == s[|s| - |r| + k];
  }

  /** So does a slice. */
  lemma SliceKeepsSafe(s: string, lo: nat, hi: nat)
    requires lo <= hi <= |s| && Safe(s)
    ensures Safe(s[lo..hi])
  {
    assert forall k :: 0 <= k < hi - lo ==> s[lo..hi][k] == s[k + lo];
  }

  /** A slice of a stretch free of '/', '?' and '#' is free of them too. */
  lemma SliceKeepsNoDelimiter(s: string, lo: nat, hi: nat)
    requires lo <= hi <= |s|
    requires forall k :: lo <= k < hi ==> !IsNetlocDelimiter(s[k])
    ensures forall k :: 0 <= k < hi - lo ==> !IsNetlocDelimiter(s[lo..hi][k])
  {
    assert forall k :: 0 <= k < hi - lo ==> s[lo..hi][k] == s[k + lo];
  }

  /** `s.replace(pat, rep)`: every non-overlapping occurrence, scanning from the left. */
  function ReplaceAll(s: string, pat: string, rep: string): (r: string)
    requires pat != []
    ensures forall c :: c in r ==> c in s || c in rep
    decreases |s|
  {
    if |s| < |pat| then s
    else if s[..|pat|] == pat then rep + ReplaceAll(s[|pat|..], pat, rep)
    else [s[0]] + ReplaceAll(s[1..], pat, rep)
  }

  /** Replacing a single character by another leaves none of it and keeps the length. */
  lemma {:induction false} ReplaceCharRemovesIt(s: string, c: char, d: char)
    requires c != d
    ensures c !in ReplaceAll(s, [c], [d])
    ensures |ReplaceAll(s, [c], [d])| == |s|
    decreases |s|
  {
    if |s| >= 1 {
      if s[..1] == [c] {
        ReplaceCharRemovesIt(s[1..], c, d);
      } else {
        assert s[0] != c by { assert s[..1][0] == s[0]; }
        ReplaceCharRemovesIt(s[1..], c, d);
      }
    }
  }

  /** Replacing a single character changes exactly the positions that hold it. */
  lemma {:induction false} ReplaceCharPointwise(s: string, c: char, d: char)
    ensures |ReplaceAll(s, [c], [d])| == |s|
    ensures forall i :: 0 <= i < |s| ==> ReplaceAll(s, [c], [d])[i] == if s[i] == c then d else s[i]
    decreases |s|
  {
    if |s| >= 1 {
      ReplaceCharPointwise(s[1..], c, d);
      var tail := ReplaceAll(s[1..], [c], [d]);
      var head := if s[0] == c then [d] else [s[0]];
      assert s[..1] == [c] <==> s[0] == c by { assert s[..1][0] == s[0]; }
      assert ReplaceAll(s, [c], [d]) == head + tail;
      forall i | 0 < i < |s| ensures (head + tail)[i] == if s[i] == c then d else s[i] {
        assert (head + tail)[i] == tail[i - 1];
        assert s[1..][i - 1] == s[i];
      }
    }
  }

  /** `pat` occurs in `s` starting at index `k`. */
  predicate OccursAt(s: string, pat: string, k: nat)
  {
    k + |pat| <= |s| && s[k..k + |pat|] == pat
  }

  /** `pat` does not occur anywhere in `s`. */
  predicate Lacks(s: string, pat: string)
  {
    forall k: nat :: k <= |s| ==> !OccursAt(s, pat, k)
  }

  /** With no occurrence of the pattern, `replace` changes nothing. */
  lemma {:induction false} ReplaceAllAbsent(s: string, pat: string, rep: string)
    requires pat != [] && Lacks(s, pat)
    ensures ReplaceAll(s, pat, rep) == s
    decreases |s|
  {
    if |s| >= |pat| {
      assert !OccursAt(s, pat, 0);
      assert Lacks(s[1..], pat) by {
        forall k: nat | k <= |s[1..]| ensures !OccursAt(s[1..], pat, k) {
          assert !OccursAt(s, pat, k + 1);
          if k + |pat| <= |s[1..]| {
            assert s[1..][k..k + |pat|] == s[k + 1..k + 1 + |pat|];
          }
        }
      }
      ReplaceAllAbsent(s[1..], pat, rep);
      assert s == [s[0]] + s[1..];
    }
  }

  /** A leading occurrence is replaced, and the scan goes on after it. */
  lemma ReplaceAllLeading(pat: string, s: string, rep: string)
    requires pat != []
    ensures ReplaceAll(pat + s, pat, rep) == rep + ReplaceAll(s, pat, rep)
  {
    assert (pat + s)[..|pat|] == pat;
    assert (pat + s)[|pat|..] == s;
  }

  /** The key of a URL's group: its host with "www." removed and '.' replaced by '_'. */
  function DomainKey(url: string): (key: string)
    ensures '.' !in key
  {
    var host := ReplaceAll(Netloc(url), "www.", "");
    ReplaceCharRemovesIt(host, '.', '_');
    ReplaceAll(host, ".", "_")
  }

  /** The test `not url or url.startswith("#")` on a stripped line. */
  predicate Skipped(line: string)
    ensures (forall k :: 0 <= k < |line| ==> IsSpace(line[k])) ==> Skipped(line)
    ensures line != [] && line[0] == '#' ==> Skipped(line)
    ensures !Skipped(line) ==> exists k :: 0 <= k < |line| && !IsSpace(line[k]) && line[k] != '#'
  {
    StripIsSlice(line);
    SpaceCharacters('#');
    var url := Strip(line);
    url == [] || url[0] == '#'
  }

  /** The stripped URLs of the lines that are not skipped, in file order. */
  function Kept(lines: seq<string>): (urls: seq<string>)
    ensures |urls| <= |lines|
  {
    if lines == [] then []
    else
      var last := lines[|lines| - 1];
      Kept(lines[..|lines| - 1]) + (if Skipped(last) then [] else [Strip(last)])
  }

  /** Filtering the lines splits over a concatenation of files. */
  lemma {:induction false} KeptAppend(a: seq<string>, b: seq<string>)
    ensures Kept(a + b) == Kept(a) + Kept(b)
    decreases |b|
  {
    if b != [] {
      var init, last := b[..|b| - 1], b[|b| - 1];
      assert (a + b)[..|a + b| - 1] == a + init;
      assert (a + b)[|a + b| - 1] == last;
      KeptAppend(a, init);
    } else {
      assert a + b == a;
    }
  }

  /** A blank or comment line, wherever it stands, contributes nothing. */
  lemma SkippedLineIgnored(before: seq<string>, line: string, after: seq<string>)
    requires Skipped(line)
    ensures Kept(before + [line] + after) == Kept(before + after)
  {
    var withLine := before + [line];
    assert withLine[..|withLine| - 1] == before;
    assert Kept(withLine) == Kept(before);
    KeptAppend(withLine, after);
    KeptAppend(before, after);
  }

  /** One more line of the file: the kept URLs grow by that line's URL unless it is skipped. */
  lemma KeptStep(lines: seq<string>, i: nat, url: string)
    requires i < |lines| && url == Strip(lines[i])
    ensures Kept(lines[..i + 1]) == Kept(lines[..i]) + (if url == [] || url[0] == '#' then [] else [url])
  {
    assert lines[..i + 1][..i] == lines[..i];
  }

  /*
   * Grouping. The functions below take the key of a URL as a parameter
   * `key`; `load_sources` uses `DomainKey`.
   */

  /** The URLs of `urls` whose key is `d`, in their original order. */
  function UrlsOf(key: string -> string, urls: seq<string>, d: string): (group: seq<string>)
    ensures |group| <= |urls|
    ensures forall u :: u in group <==> u in urls && key(u) == d
  {
    if urls == [] then []
    else
      var init, last := urls[..|urls| - 1], urls[|urls| - 1];
      assert forall u :: u in urls <==> u in init || u == last by {
        assert urls == init + [last];
      }
      UrlsOf(key, init, d) + (if key(last) == d then [last] else [])
  }

  /** The keys of `urls`, each once, in the order of their first URL. */
  function DomainsInOrder(key: string -> string, urls: seq<string>): (ds: seq<string>)
    ensures |ds| <= |urls|
    ensures urls != [] ==> ds != [] && ds[0] == key(urls[0])
  {
    if urls == [] then []
    else
      var init, last := urls[..|urls| - 1], urls[|urls| - 1];
      var ds := DomainsInOrder(key, init);
      if key(last) in ds then ds else ds + [key(last)]
  }

  /** A key is listed exactly when some URL has it, and no key is listed twice. */
  lemma {:induction false} DomainsInOrderExactly(key: string -> string, urls: seq<string>)
    ensures Distinct(DomainsInOrder(key, urls))
    ensures forall d :: d in DomainsInOrder(key, urls) <==> UrlsOf(key, urls, d) != []
  {
    if urls != [] {
      var init, last := urls[..|urls| - 1], urls[|urls| - 1];
      DomainsInOrderExactly(key, init);
      var ds := DomainsInOrder(key, init);
      assert DomainsInOrder(key, urls) == if key(last) in ds then ds else ds + [key(last)];
      if key(last) !in ds {
        DistinctSnoc(ds, key(last));
      }
      forall d ensures d in DomainsInOrder(key, urls) <==> UrlsOf(key, urls, d) != [] {
        assert UrlsOf(key, urls, d) == UrlsOf(key, init, d) + (if key(last) == d then [last] else []);
      }
    }
  }

  /** Appending a key not yet listed keeps the keys distinct. */
  lemma DistinctSnoc(ds: seq<string>, d: string)
    requires Distinct(ds) && d !in ds
    ensures Distinct(ds + [d])
  {
  }

  /** The grouping splits over a concatenation, keeping each side's order. */
  lemma {:induction false} UrlsOfAppend(key: string -> string, a: seq<string>, b: seq<string>, d: string)
    ensures UrlsOf(key, a + b, d) == UrlsOf(key, a, d) + UrlsOf(key, b, d)
    decreases |b|
  {
    if b != [] {
      var init, last := b[..|b| - 1], b[|b| - 1];
      assert (a + b)[..|a + b| - 1] == a + init;
      assert (a + b)[|a + b| - 1] == last;
      UrlsOfAppend(key, a, init, d);
    } else {
      assert a + b == a;
    }
  }

  /** The sum of the sizes of the groups named in `ds`. */
  function TotalSize(key: string -> string, urls: seq<string>, ds: seq<string>): (n: nat)
  {
    if ds == [] then 0
    else |UrlsOf(key, urls, ds[0])| + TotalSize(key, urls, ds[1..])
  }

  /** Adding one URL grows exactly the group of its key, if that key is listed. */
  lemma {:induction false} TotalSizeStep(key: string -> string, urls: seq<string>, u: string, ds: seq<string>)
    requires Distinct(ds)
    ensures TotalSize(key, urls + [u], ds) == TotalSize(key, urls, ds) + (if key(u) in ds then 1 else 0)
  {
    if ds != [] {
      assert Distinct(ds[1..]) by {
        forall i, j | 0 <= i < j < |ds[1..]| ensures ds[1..][i] != ds[1..][j] {
          assert ds[1..][i] == ds[i + 1] && ds[1..][j] == ds[j + 1];
        }
      }
      assert ds[0] !in ds[1..] by {
        forall k | 0 <= k < |ds[1..]| ensures ds[1..][k] != ds[0] {
          assert ds[1..][k] == ds[k + 1];
        }
      }
      assert key(u) in ds <==> key(u) == ds[0] || key(u) in ds[1..] by {
        assert ds == [ds[0]] + ds[1..];
      }
      assert (urls + [u])[..|urls + [u]| - 1] == urls;
      TotalSizeStep(key, urls, u, ds[1..]);
    }
  }

  lemma {:induction false} TotalSizeAppend(key: string -> string, urls: seq<string>, ds: seq<string>, d: string)
    ensures TotalSize(key, urls, ds + [d]) == TotalSize(key, urls, ds) + |UrlsOf(key, urls, d)|
  {
    if ds != [] {
      assert (ds + [d])[1..] == ds[1..] + [d];
      TotalSizeAppend(key, urls, ds[1..], d);
    } else {
      assert [d][1..] == [];
    }
  }

  /** Every URL lands in exactly one group, so the groups' sizes add up to the number of URLs. */
  lemma {:induction false} GroupsCoverAll(key: string -> string, urls: seq<string>)
    ensures TotalSize(key, urls, DomainsInOrder(key, urls)) == |urls|
  {
    if urls != [] {
      var init, last := urls[..|urls| - 1], urls[|urls| - 1];
      assert urls == init + [last];
      var ds := DomainsInOrder(key, init);
      GroupsCoverAll(key, init);
      DomainsInOrderExactly(key, init);
      TotalSizeStep(key, init, last, ds);
      if key(last) !in ds {
        TotalSizeAppend(key, urls, ds, key(last));
        assert UrlsOf(key, init, key(last)) == [];
        assert UrlsOf(key, urls, key(last)) == [last];
      }
    }
  }

  /** The `tasks` dictionary: its keys in insertion order, and the list of each key. */
  datatype Tasks = Tasks(domains: seq<string>, urls: map<string, seq<string>>)

  /** `domains` and `groups` are the `tasks` dictionary built from `urls` with `key`. */
  ghost predicate Represents(key: string -> string, domains: seq<string>, groups: map<string, seq<string>>, urls: seq<string>)
  {
    && domains == DomainsInOrder(key, urls)
    && (forall d :: d in groups <==> d in domains)
    && (forall d :: d in groups ==> groups[d] == UrlsOf(key, urls, d))
  }

  /** One more URL: its key is listed if it is new, and only the group of its key grows. */
  lemma GroupStep(key: string -> string, urls: seq<string>, u: string)
    ensures DomainsInOrder(key, urls + [u]) ==
      if key(u) in DomainsInOrder(key, urls) then DomainsInOrder(key, urls) else DomainsInOrder(key, urls) + [key(u)]
    ensures forall e :: UrlsOf(key, urls + [u], e) == UrlsOf(key, urls, e) + (if key(u) == e then [u] else [])
  {
    var grown := urls + [u];
    assert grown[..|grown| - 1] == urls && grown[|grown| - 1] == u;
  }

  /**
   * Lines 22-24 for one URL `u` with key `d`: `after` is `groups` with `d`
   * created if it was new and `u` appended to the list of `d`.
   */
  lemma {:induction false} InsertStep(key: string -> string, domains: seq<string>, groups: map<string, seq<string>>,
                                      urls: seq<string>, u: string, d: string, after: map<string, seq<string>>)
    requires Represents(key, domains, groups, urls)
    requires d == key(u)
    requires d in after && after[d] == (if d in groups then groups[d] else []) + [u]
    requires forall e :: e != d ==> (e in after <==> e in groups)
    requires forall e :: e != d && e in groups ==> after[e] == groups[e]
    ensures Represents(key, if d in groups then domains else domains + [d], after, urls + [u])
  {
    GroupStep(key, urls, u);
    InsertKeys(domains, groups, d, after);
    InsertGroups(key, domains, groups, urls, u, d, after);
  }

  /** The keys of `after` are those of `groups` plus `d`, listed in `domains` with `d` appended if new. */
  lemma InsertKeys(domains: seq<string>, groups: map<string, seq<string>>, d: string, after: map<string, seq<string>>)
    requires forall e :: e in groups <==> e in domains
    requires d in after
    requires forall e :: e != d ==> (e in after <==> e in groups)
    ensures forall e :: e in after <==> e in (if d in groups then domains else domains + [d])
  {
    forall e ensures e in after <==> e in (if d in groups then domains else domains + [d]) {
      if e != d {
        assert e in domains + [d] <==> e in domains;
      }
    }
  }

  /** Each list of `after` is the group of its key among the URLs with `u` added. */
  lemma InsertGroups(key: string -> string, domains: seq<string>, groups: map<string, seq<string>>,
                     urls: seq<string>, u: string, d: string, after: map<string, seq<string>>)
    requires Represents(key, domains, groups, urls)
    requires d == key(u)
    requires d in after && after[d] == (if d in groups then groups[d] else []) + [u]
    requires forall e :: e != d ==> (e in after <==> e in groups)
    requires forall e :: e != d && e in groups ==> after[e] == groups[e]
    ensures forall e :: e in after ==> after[e] == UrlsOf(key, urls + [u], e)
  {
    GroupStep(key, urls, u);
    if d !in groups {
      DomainsInOrderExactly(key, urls);
      assert UrlsOf(key, urls, d) == [];
    }
  }

  /**
   * Lines 22-24: create the list of `domain` if it is new, then append `url`
   * to it. `urls` are the URLs grouped so far.
   */
  method AddUrl(key: string -> string, domains: seq<string>, groups: map<string, seq<string>>,
                ghost urls: seq<string>, url: string, domain: string)
    returns (domains': seq<string>, groups': map<string, seq<string>>)
    requires Represents(key, domains, groups, urls)
    requires domain == key(url)
    ensures Represents(key, domains', groups', urls + [url])
    ensures domains' == if domain in groups then domains else domains + [domain]
  {
    domains', groups' := domains, groups;
    if domain !in groups' {
      groups' := groups'[domain := []];
      domains' := domains' + [domain];
    }
    groups' := groups'[domain := groups'[domain] + [url]];
    InsertStep(key, domains, groups, urls, url, domain, groups');
  }

  /**
   * The loop of `load_sources` (lines 15-25) with the key of line 21 given
   * as `key`, so that the grouping can be reasoned about apart from how the
   * key is derived.
   */
  method LoadSourcesBy(key: string -> string, lines: seq<string>) returns (tasks: Tasks)
    ensures Represents(key, tasks.domains, tasks.urls, Kept(lines))
  {
    var domains: seq<string> := [];
    var groups: map<string, seq<string>> := map[];
    ghost var kept: seq<string> := [];
    var i := 0;
    while i < |lines|
      invariant i <= |lines|
      invariant kept == Kept(lines[..i])
      invariant Represents(key, domains, groups, kept)
    {
      var url := Strip(lines[i]);
      KeptStep(lines, i, url);
      if url == [] || url[0] == '#' {
        i := i + 1;
        continue;
      }
      domains, groups := AddUrl(key, domains, groups, kept, url, key(url));
      kept := kept + [url];
      i := i + 1;
    }
    assert lines[..i] == lines;
    tasks := Tasks(domains, groups);
  }

  /** `load_sources` over the lines of the source file. */
  method LoadSources(lines: seq<string>) returns (tasks: Tasks)
    ensures Represents(DomainKey, tasks.domains, tasks.urls, Kept(lines))
  {
    tasks := LoadSourcesBy(DomainKey, lines);
  }

  /** The `tasks` dictionary lists each key once and never holds an empty list. */
  lemma LoadedGroupsNonEmpty(lines: seq<string>, tasks: Tasks)
    requires Represents(DomainKey, tasks.domains, tasks.urls, Kept(lines))
    ensures Distinct(tasks.domains)
    ensures forall d :: d in tasks.urls ==> tasks.urls[d] != []
  {
    DomainsInOrderExactly(DomainKey, Kept(lines));
  }

  /** Each list holds only URLs with its own key, so no key contains a '.'. */
  lemma LoadedKeysMatch(lines: seq<string>, tasks: Tasks)
    requires Represents(DomainKey, tasks.domains, tasks.urls, Kept(lines))
    ensures forall d, u :: d in tasks.urls && u in tasks.urls[d] ==> DomainKey(u) == d
    ensures forall d :: d in tasks.urls ==> '.' !in d
  {
    DomainsInOrderExactly(DomainKey, Kept(lines));
    forall d | d in tasks.urls ensures '.' !in d {
      var group := tasks.urls[d];
      assert group == UrlsOf(DomainKey, Kept(lines), d) && group != [];
      assert group[0] in group;
      assert DomainKey(group[0]) == d;
    }
  }

  /** Every kept line is in the list of its own key, and the lists hold one entry per kept line. */
  lemma LoadedUrlsCovered(lines: seq<string>, tasks: Tasks)
    requires Represents(DomainKey, tasks.domains, tasks.urls, Kept(lines))
    ensures forall u :: u in Kept(lines) ==> DomainKey(u) in tasks.urls && u in tasks.urls[DomainKey(u)]
    ensures TotalSize(DomainKey, Kept(lines), tasks.domains) == |Kept(lines)|
  {
    var urls := Kept(lines);
    DomainsInOrderExactly(DomainKey, urls);
    forall u | u in urls ensures DomainKey(u) in tasks.urls && u in tasks.urls[DomainKey(u)] {
      assert u in UrlsOf(DomainKey, urls, DomainKey(u));
    }
    GroupsCoverAll(DomainKey, urls);
  }

  /** One character is dropped when it is a tab, carriage return or line feed, and kept otherwise. */
  lemma RemoveUnsafeChar(c: char)
    ensures RemoveUnsafe([c]) == if IsUnsafeByte(c) then [] else [c]
  {
    assert [c][1..] == [];
  }

  /** The deletion works piece by piece, so the kept characters stay in their order. */
  lemma {:induction false} RemoveUnsafeAppend(a: string, b: string)
    ensures RemoveUnsafe(a + b) == RemoveUnsafe(a) + RemoveUnsafe(b)
  {
    if a == [] {
      assert a + b == b;
    } else {
      var head := if IsUnsafeByte(a[0]) then [] else [a[0]];
      assert (a + b)[0] == a[0];
      assert (a + b)[1..] == a[1..] + b;
      assert RemoveUnsafe(a + b) == head + RemoveUnsafe(a[1..] + b);
      assert RemoveUnsafe(a) == head + RemoveUnsafe(a[1..]);
      RemoveUnsafeAppend(a[1..], b);
    }
  }

  /** A string without tabs, carriage returns or line feeds passes `RemoveUnsafe` unchanged. */
  lemma {:induction false} RemoveUnsafeKeepsSafe(s: string)
    requires forall k :: 0 <= k < |s| ==> !IsUnsafeByte(s[k])
    ensures RemoveUnsafe(s) == s
  {
    if s != [] {
      RemoveUnsafeKeepsSafe(s[1..]);
      assert s == [s[0]] + s[1..];
    }
  }

  lemma SafeAppend(a: string, b: string)
    requires Safe(a) && Safe(b)
    ensures Safe(a + b)
  {
    forall k | 0 <= k < |a + b| ensures !IsUnsafeByte((a + b)[k]) {
      if k >= |a| {
        assert (a + b)[k] == b[k - |a|];
      }
    }
  }

  /** A URL `scheme:tail`, with a valid scheme, keeps only `tail` once the scheme is taken off. */
  lemma {:induction false} CleanedOfScheme(scheme: string, tail: string)
    requires scheme != [] && IsAsciiLetter(scheme[0])
    requires forall k :: 0 <= k < |scheme| ==> IsSchemeChar(scheme[k])
    requires Safe(tail)
    ensures Cleaned(scheme + ":" + tail) == tail
  {
    var url := scheme + ":" + tail;
    assert url[0] == scheme[0];
    assert LstripC0(url) == url;
    SafeAppend(scheme, ":");
    SafeAppend(scheme + ":", tail);
    RemoveUnsafeKeepsSafe(url);
    SchemeFound(scheme, tail);
    assert AfterScheme(url) == tail;
  }

  /** In `scheme:tail`, with a valid scheme, the first ':' ends the scheme and the scheme is taken. */
  lemma SchemeFound(scheme: string, tail: string)
    requires scheme != [] && IsAsciiLetter(scheme[0])
    requires forall k :: 0 <= k < |scheme| ==> IsSchemeChar(scheme[k])
    ensures Find(scheme + ":" + tail, ':') == |scheme|
    ensures HasScheme(scheme + ":" + tail)
    ensures (scheme + ":" + tail)[|scheme| + 1..] == tail
  {
    var url := scheme + ":" + tail;
    var n := |scheme|;
    forall k | 0 <= k < n ensures url[k] != ':' && IsSchemeChar(url[k]) {
      assert url[k] == scheme[k];
    }
    assert url[n] == ':';
    assert url[n + 1..] == tail;
  }

  /** After "//", the network location runs over `host` and stops where `rest` starts. */
  lemma {:induction false} NetlocEndOfHost(host: string, rest: string)
    requires forall k :: 0 <= k < |host| ==> !IsNetlocDelimiter(host[k])
    requires rest == [] || IsNetlocDelimiter(rest[0])
    ensures NetlocEnd("//" + host + rest, 2) == 2 + |host|
  {
    var after := "//" + host + rest;
    assert forall k :: 2 <= k < 2 + |host| ==> after[k] == host[k - 2];
    assert rest != [] ==> after[2 + |host|] == rest[0];
    var e := NetlocEnd(after, 2);
    if e < 2 + |host| {
      assert false;
    } else if e > 2 + |host| {
      assert false;
    }
  }

  /**
   * The key of `scheme://www.host…`, for a host that holds no further "www.",
   * is the host with every '.' turned into '_': "https://www.example.com/a"
   * goes to the group "example_com".
   */
  lemma DomainKeyOfUrl(scheme: string, host: string, rest: string)
    requires scheme != [] && IsAsciiLetter(scheme[0])
    requires forall k :: 0 <= k < |scheme| ==> IsSchemeChar(scheme[k])
    requires Safe(host) && forall k :: 0 <= k < |host| ==> !IsNetlocDelimiter(host[k])
    requires Lacks(host, "www.")
    requires Safe(rest) && (rest == [] || IsNetlocDelimiter(rest[0]))
    ensures var key := DomainKey(scheme + ":" + ("//" + ("www." + host) + rest));
      && |key| == |host|
      && forall i :: 0 <= i < |host| ==> key[i] == if host[i] == '.' then '_' else host[i]
  {
    var www := "www." + host;
    assert Safe(www) by {
      forall k | 0 <= k < |www| ensures !IsUnsafeByte(www[k]) {
        if k >= 4 {
          assert www[k] == host[k - 4];
        }
      }
    }
    forall k | 0 <= k < |www| ensures !IsNetlocDelimiter(www[k]) {
      if k >= 4 {
        assert www[k] == host[k - 4];
      }
    }
    NetlocOfUrl(scheme, www, rest);
    ReplaceAllLeading("www.", host, "");
    ReplaceAllAbsent(host, "www.", "");
    assert ReplaceAll(www, "www.", "") == host;
    ReplaceCharPointwise(host, '.', '_');
  }

  /**
   * For `scheme:` followed by "//", `host`, and then nothing or a path, query
   * or fragment, the network location is exactly `host`.
   */
  lemma NetlocOfUrl(scheme: string, host: string, rest: string)
    requires scheme != [] && IsAsciiLetter(scheme[0])
    requires forall k :: 0 <= k < |scheme| ==> IsSchemeChar(scheme[k])
    requires Safe(host) && forall k :: 0 <= k < |host| ==> !IsNetlocDelimiter(host[k])
    requires Safe(rest) && (rest == [] || IsNetlocDelimiter(rest[0]))
    ensures Netloc(scheme + ":" + ("//" + host + rest)) == host
  {
    var tail := "//" + host + rest;
    SafeAppend("//", host);
    SafeAppend("//" + host, rest);
    CleanedOfScheme(scheme, tail);
    NetlocEndOfHost(host, rest);
    assert tail[0] == '/' && tail[1] == '/';
    assert tail[2..2 + |host|] == host;
  }
}
