/** The string rules the crawler applies to a page: the whitespace of Python's
    `str.strip`, the collapse of newline runs, the normalised page text and the
    page title. */
module TextRules {

  /** Python's `str.isspace` for a single code point. */
  predicate IsSpace(c: char) {
    ('\U{9}' <= c <= '\U{D}') || ('\U{1C}' <= c <= '\U{20}') || c == '\U{85}' || c == '\U{A0}'
    || c == '\U{1680}' || ('\U{2000}' <= c <= '\U{200A}') || c == '\U{2028}' || c == '\U{2029}'
    || c == '\U{202F}' || c == '\U{205F}' || c == '\U{3000}'
  }

  /** Neither end of `s` is whitespace. */
  predicate IsStripped(s: string) {
    s == [] || (!IsSpace(s[0]) && !IsSpace(s[|s| - 1]))
  }

  /** `s` holds no run of three or more newlines. */
  predicate NoNewlineRun(s: string) {
    forall i :: 0 <= i < |s| - 2 ==> !(s[i] == '\n' && s[i + 1] == '\n' && s[i + 2] == '\n')
  }

  /** Python's `str.lstrip()`: the longest suffix of `s` that does not start with whitespace. */
  function TrimStart(s: string): (r: string)
    ensures |r| <= |s| && r == s[|s| - |r|..]
    ensures forall i :: 0 <= i < |s| - |r| ==> IsSpace(s[i])
    ensures r == [] || !IsSpace(r[0])
  {
    if s == [] || !IsSpace(s[0]) then s else TrimStart(s[1..])
  }

  /** Python's `str.rstrip()`: the longest prefix of `s` that does not end with whitespace. */
  function TrimEnd(s: string): (r: string)
    ensures |r| <= |s| && r == s[..|r|]
    ensures forall i :: |r| <= i < |s| ==> IsSpace(s[i])
    ensures r == [] || !IsSpace(r[|r| - 1])
  {
    if s == [] || !IsSpace(s[|s| - 1]) then s else TrimEnd(s[..|s| - 1])
  }

  /** Python's `str.strip()`. */
  function Strip(s: string): (r: string)
    ensures |r| <= |s|
    ensures IsStripped(r)
  {
    TrimEnd(TrimStart(s))
  }

  /** Where `Strip` starts cutting: the length of the leading whitespace. */
  function StripStart(s: string): (lo: nat)
    ensures lo <= |s|
  {
    |s| - |TrimStart(s)|
  }

  /** `Strip` keeps a contiguous block of `s`, starting where the leading
      whitespace ends. */
  lemma StripInfix(s: string)
    ensures StripStart(s) + |Strip(s)| <= |s|
    ensures Strip(s) == s[StripStart(s)..StripStart(s) + |Strip(s)|]
  {
    var t := TrimStart(s);
    var r := TrimEnd(t);
    SliceOfSlice(s, |s| - |t|, |r|);
  }

  /** A prefix of a suffix is an infix. */
  lemma SliceOfSlice(s: string, lo: nat, n: nat)
    requires lo + n <= |s|
    ensures s[lo..][..n] == s[lo..lo + n]
  {
  }

  /** What `Strip` cuts off either end is whitespace. */
  lemma StripCutsSpace(s: string)
    ensures forall i :: 0 <= i < StripStart(s) ==> IsSpace(s[i])
    ensures forall i :: StripStart(s) + |Strip(s)| <= i < |s| ==> IsSpace(s[i])
  {
    var t := TrimStart(s);
    var r := TrimEnd(t);
    var lo := |s| - |t|;
    assert Strip(s) == r && StripStart(s) == lo;
    forall i | lo + |r| <= i < |s|
      ensures IsSpace(s[i])
    {
      assert s[i] == t[i - lo];
    }
  }

  /** `Strip` cuts a block of whitespace off each end and keeps the middle of
      `s` untouched; what it returns starts and ends with non-whitespace. */
  lemma StripSpec(s: string)
    ensures IsStripped(Strip(s))
    ensures StripStart(s) + |Strip(s)| <= |s|
    ensures Strip(s) == s[StripStart(s)..StripStart(s) + |Strip(s)|]
    ensures forall i :: 0 <= i < StripStart(s) ==> IsSpace(s[i])
    ensures forall i :: StripStart(s) + |Strip(s)| <= i < |s| ==> IsSpace(s[i])
  {
    StripInfix(s);
    StripCutsSpace(s);
  }

  /** A string that is already stripped is left alone. */
  lemma StripFixesStripped(s: string)
    requires IsStripped(s)
    ensures Strip(s) == s
  {
    assert TrimStart(s) == s;
  }

  /** Stripping twice is stripping once. */
  lemma StripIdempotent(s: string)
    ensures Strip(Strip(s)) == Strip(s)
  {
    StripSpec(s);
    StripFixesStripped(Strip(s));
  }

  /** The number of newlines at the start of `s`. */
  function NewlineRun(s: string): (k: nat)
    ensures k <= |s|
    ensures forall i :: 0 <= i < k ==> s[i] == '\n'
    ensures k == |s| || s[k] != '\n'
  {
    if s == [] || s[0] != '\n' then 0 else 1 + NewlineRun(s[1..])
  }

  /** Python's `re.sub(r'\n{3,}', '\n\n', s)`: every maximal run of three or
      more newlines becomes exactly two; everything else is kept. */
  function CollapseNewlines(s: string): (r: string)
    ensures |r| <= |s|
    ensures r == [] <==> s == []
    ensures s != [] ==> r[0] == s[0]
    decreases |s|
  {
    if s == [] then []
    else if s[0] != '\n' then [s[0]] + CollapseNewlines(s[1..])
    else
      var k := NewlineRun(s);
      (if k >= 3 then "\n\n" else s[..k]) + CollapseNewlines(s[k..])
  }

  /** `s` with every newline removed. */
  function WithoutNewlines(s: string): (r: string)
    ensures '\n' !in r
  {
    if s == [] then []
    else if s[0] == '\n' then WithoutNewlines(s[1..])
    else [s[0]] + WithoutNewlines(s[1..])
  }

  lemma {:induction false} WithoutNewlinesAppend(a: string, b: string)
    ensures WithoutNewlines(a + b) == WithoutNewlines(a) + WithoutNewlines(b)
  {
    if a == [] {
      assert a + b == b;
    } else {
      assert (a + b)[0] == a[0];
      assert (a + b)[1..] == a[1..] + b;
      WithoutNewlinesAppend(a[1..], b);
    }
  }

  lemma {:induction false} WithoutNewlinesOfRun(s: string)
    requires forall i :: 0 <= i < |s| ==> s[i] == '\n'
    ensures WithoutNewlines(s) == []
  {
    if s != [] {
      WithoutNewlinesOfRun(s[1..]);
    }
  }

  /** A run of at most two newlines in front of text that does not start with
      a newline creates no run of three. */
  lemma ShortRunBeforeNoRun(p: string, t: string)
    requires |p| <= 2 && NoNewlineRun(t) && (t == [] || t[0] != '\n')
    ensures NoNewlineRun(p + t)
  {
    var r := p + t;
    forall i | 0 <= i < |r| - 2
      ensures !(r[i] == '\n' && r[i + 1] == '\n' && r[i + 2] == '\n')
    {
      if i >= |p| {
        assert r[i] == t[i - |p|] && r[i + 1] == t[i + 1 - |p|] && r[i + 2] == t[i + 2 - |p|];
      } else {
        assert r[|p|] == t[0];
      }
    }
  }

  /** A character other than a newline in front of run-free text creates no run. */
  lemma OtherBeforeNoRun(c: char, t: string)
    requires c != '\n' && NoNewlineRun(t)
    ensures NoNewlineRun([c] + t)
  {
    var r := [c] + t;
    forall i | 1 <= i < |r| - 2
      ensures !(r[i] == '\n' && r[i + 1] == '\n' && r[i + 2] == '\n')
    {
      assert r[i] == t[i - 1] && r[i + 1] == t[i] && r[i + 2] == t[i + 1];
    }
  }

  /** After the collapse no run of three newlines is left. */
  lemma {:induction false} CollapseLeavesNoRun(s: string)
    ensures NoNewlineRun(CollapseNewlines(s))
    decreases |s|
  {
    if s == [] {
    } else if s[0] != '\n' {
      CollapseLeavesNoRun(s[1..]);
      OtherBeforeNoRun(s[0], CollapseNewlines(s[1..]));
    } else {
      var k := NewlineRun(s);
      var p: string := if k >= 3 then "\n\n" else s[..k];
      CollapseLeavesNoRun(s[k..]);
      ShortRunBeforeNoRun(p, CollapseNewlines(s[k..]));
      assert CollapseNewlines(s) == p + CollapseNewlines(s[k..]);
    }
  }

  /** A string with no run of three newlines is not changed by the collapse. */
  lemma {:induction false} CollapseFixesRunFree(s: string)
    requires NoNewlineRun(s)
    ensures CollapseNewlines(s) == s
    decreases |s|
  {
    if s == [] {
    } else if s[0] != '\n' {
      CollapseFixesRunFree(s[1..]);
    } else {
      var k := NewlineRun(s);
      if |s| >= 3 {
        assert !(s[0] == '\n' && s[1] == '\n' && s[2] == '\n');
      }
      assert k < 3;
      CollapseFixesRunFree(s[k..]);
      assert s[..k] + s[k..] == s;
    }
  }

  /** The collapse removes newlines and nothing else. */
  lemma {:induction false} CollapseKeepsOtherText(s: string)
    ensures WithoutNewlines(CollapseNewlines(s)) == WithoutNewlines(s)
    decreases |s|
  {
    if s == [] {
    } else if s[0] != '\n' {
      CollapseKeepsOtherText(s[1..]);
      WithoutNewlinesAppend([s[0]], CollapseNewlines(s[1..]));
      WithoutNewlinesAppend([s[0]], s[1..]);
      assert [s[0]] + s[1..] == s;
    } else {
      var k := NewlineRun(s);
      var p: string := if k >= 3 then "\n\n" else s[..k];
      CollapseKeepsOtherText(s[k..]);
      WithoutNewlinesAppend(p, CollapseNewlines(s[k..]));
      WithoutNewlinesAppend(s[..k], s[k..]);
      WithoutNewlinesOfRun(p);
      WithoutNewlinesOfRun(s[..k]);
      assert s[..k] + s[k..] == s;
    }
  }

  /** A normalised text has no run of three newlines and no whitespace at
      either end. */
  predicate IsNormal(s: string) {
    NoNewlineRun(s) && IsStripped(s)
  }

  lemma NoNewlineRunInfix(s: string, lo: nat, hi: nat)
    requires NoNewlineRun(s) && lo <= hi <= |s|
    ensures NoNewlineRun(s[lo..hi])
  {
    var t := s[lo..hi];
    forall i | 0 <= i < |t| - 2
      ensures !(t[i] == '\n' && t[i + 1] == '\n' && t[i + 2] == '\n')
    {
      assert t[i] == s[lo + i] && t[i + 1] == s[lo + i + 1] && t[i + 2] == s[lo + i + 2];
    }
  }

  /** Stripping cannot create a run of three newlines. */
  lemma StripKeepsNoRun(c: string)
    requires NoNewlineRun(c)
    ensures NoNewlineRun(Strip(c))
  {
    var t := TrimStart(c);
    NoNewlineRunDrop(c, |c| - |t|);
    var r := TrimEnd(t);
    NoNewlineRunTake(t, |r|);
  }

  /** A suffix of run-free text is run-free. */
  lemma NoNewlineRunDrop(s: string, lo: nat)
    requires NoNewlineRun(s) && lo <= |s|
    ensures NoNewlineRun(s[lo..])
  {
    assert s[lo..] == s[lo..|s|];
    NoNewlineRunInfix(s, lo, |s|);
  }

  /** A prefix of run-free text is run-free. */
  lemma NoNewlineRunTake(s: string, hi: nat)
    requires NoNewlineRun(s) && hi <= |s|
    ensures NoNewlineRun(s[..hi])
  {
    assert s[..hi] == s[0..hi];
    NoNewlineRunInfix(s, 0, hi);
  }

  /** Every normalised text is normal. */
  lemma NormaliseIsNormal(s: string)
    ensures IsNormal(Strip(CollapseNewlines(s)))
  {
    CollapseLeavesNoRun(s);
    StripKeepsNoRun(CollapseNewlines(s));
  }

  /** The page-text cleanup: collapse newline runs, then strip. */
  function Normalise(s: string): (r: string)
    ensures |r| <= |s|
    ensures IsNormal(r)
  {
    NormaliseIsNormal(s);
    Strip(CollapseNewlines(s))
  }

  /** A normal text is left alone by the cleanup. */
  lemma NormalIsFixed(r: string)
    requires IsNormal(r)
    ensures Normalise(r) == r
  {
    CollapseFixesRunFree(r);
    StripFixesStripped(r);
  }

  /** Every normalised text is normal, and normalising it again changes nothing. */
  lemma NormaliseSpec(s: string)
    ensures IsNormal(Normalise(s))
    ensures Normalise(Normalise(s)) == Normalise(s)
  {
    NormalIsFixed(Normalise(s));
  }

  /** The site's branding suffix that page titles carry. */
  const Brand: string := " | \U{1F99C}\U{FE0F}\U{1F517} LangChain"

  /** `pat` occurs in `s` starting at index `i`. */
  predicate OccursAt(s: string, pat: string, i: int) {
    0 <= i && i + |pat| <= |s| && s[i..i + |pat|] == pat
  }

  predicate Occurs(s: string, pat: string) {
    exists i :: 0 <= i <= |s| - |pat| && OccursAt(s, pat, i)
  }

  /** Python's `s.replace(pat, '')`: remove the occurrences of `pat` found by
      a left-to-right scan, without overlaps. */
  function RemoveAll(s: string, pat: string): (r: string)
    requires pat != []
    ensures |r| <= |s|
    decreases |s|
  {
    if |s| < |pat| then s
    else if s[..|pat|] == pat then RemoveAll(s[|pat|..], pat)
    else [s[0]] + RemoveAll(s[1..], pat)
  }

  /** A pattern absent from `s` is absent from its tail. */
  lemma AbsentFromTail(s: string, pat: string)
    requires s != [] && !Occurs(s, pat)
    ensures !Occurs(s[1..], pat)
  {
    forall i | 0 <= i <= |s[1..]| - |pat| && OccursAt(s[1..], pat, i)
      ensures false
    {
      assert s[1..][i..i + |pat|] == s[i + 1..i + 1 + |pat|];
      assert OccursAt(s, pat, i + 1);
    }
  }

  /** Removing a pattern that does not occur changes nothing. */
  lemma {:induction false} RemoveAllAbsent(s: string, pat: string)
    requires pat != [] && !Occurs(s, pat)
    ensures RemoveAll(s, pat) == s
    decreases |s|
  {
    if |s| >= |pat| {
      assert !OccursAt(s, pat, 0);
      AbsentFromTail(s, pat);
      RemoveAllAbsent(s[1..], pat);
    }
  }

  /** An occurrence in the tail of `s` is an occurrence in `s`, one place later. */
  lemma OccursInTail(s: string, pat: string, j: int)
    requires s != [] && OccursAt(s[1..], pat, j)
    ensures OccursAt(s, pat, j + 1)
  {
    assert s[1..][j..j + |pat|] == s[j + 1..j + 1 + |pat|];
  }

  /** When `pat` does not start `s`, `replace` keeps the first character. */
  lemma RemoveAllKeepsHead(s: string, pat: string)
    requires pat != [] && |s| >= |pat| && !OccursAt(s, pat, 0)
    ensures RemoveAll(s, pat) == [s[0]] + RemoveAll(s[1..], pat)
  {
    assert s[..|pat|] == s[0..|pat|];
  }

  /** `pat` does not occur in `s` at any index before `i`. */
  predicate NoneBefore(s: string, pat: string, i: int) {
    forall j :: 0 <= j < i ==> !OccursAt(s, pat, j)
  }

  /** Dropping the first character shifts every later occurrence one place
      to the front, so none starts before `i - 1` in the tail. */
  lemma NoneBeforeInTail(s: string, pat: string, i: int)
    requires s != [] && NoneBefore(s, pat, i)
    ensures NoneBefore(s[1..], pat, i - 1)
  {
    forall j | 0 <= j < i - 1
      ensures !OccursAt(s[1..], pat, j)
    {
      if OccursAt(s[1..], pat, j) {
        OccursInTail(s, pat, j);
      }
    }
  }

  /** A prefix in which no occurrence of `pat` starts is kept as it is. */
  lemma {:induction false} RemoveAllKeepsPrefix(u: string, v: string, pat: string)
    requires pat != [] && NoneBefore(u + v, pat, |u|)
    ensures RemoveAll(u + v, pat) == u + RemoveAll(v, pat)
    decreases |u|
  {
    var s := u + v;
    if u == [] {
      assert s == v;
    } else if |s| < |pat| {
      RemoveAllAbsentShort(v, pat);
    } else {
      assert !OccursAt(s, pat, 0);
      RemoveAllKeepsHead(s, pat);
      NoneBeforeInTail(s, pat, |u|);
      assert s[1..] == u[1..] + v;
      RemoveAllKeepsPrefix(u[1..], v, pat);
      ConsAppend(u[0], u[1..], RemoveAll(v, pat));
      assert [u[0]] + u[1..] == u;
    }
  }

  /** Concatenation after a single character regroups. */
  lemma ConsAppend(c: char, a: string, b: string)
    ensures [c] + (a + b) == ([c] + a) + b
  {
  }

  /** A text shorter than the pattern is left alone. */
  lemma RemoveAllAbsentShort(s: string, pat: string)
    requires pat != [] && |s| < |pat|
    ensures RemoveAll(s, pat) == s
  {
  }

  /** `replace` keeps everything before the first occurrence, drops that
      occurrence and carries on after it; with `RemoveAllAbsent` this pins
      down the result on every input. */
  lemma RemoveAllAtFirst(s: string, pat: string, i: nat)
    requires pat != [] && OccursAt(s, pat, i) && NoneBefore(s, pat, i)
    ensures RemoveAll(s, pat) == s[..i] + RemoveAll(s[i + |pat|..], pat)
  {
    var u, v := s[..i], s[i..];
    assert s == u + v;
    RemoveAllKeepsPrefix(u, v, pat);
    assert v[..|pat|] == pat && v[|pat|..] == s[i + |pat|..];
  }

  /** A pattern that occurs is removed, so the text gets strictly shorter. */
  lemma {:induction false} RemoveAllShortens(s: string, pat: string)
    requires pat != [] && Occurs(s, pat)
    ensures |RemoveAll(s, pat)| < |s|
    decreases |s|
  {
    var i :| 0 <= i <= |s| - |pat| && OccursAt(s, pat, i);
    if s[..|pat|] != pat {
      assert i > 0 && s[1..][i - 1..i - 1 + |pat|] == s[i..i + |pat|];
      assert OccursAt(s[1..], pat, i - 1);
      RemoveAllShortens(s[1..], pat);
    }
  }

  /** `replace(pat, '')` leaves the text unchanged exactly when `pat` does not occur. */
  lemma RemoveAllUnchanged(s: string, pat: string)
    requires pat != []
    ensures RemoveAll(s, pat) == s <==> !Occurs(s, pat)
  {
    if Occurs(s, pat) {
      RemoveAllShortens(s, pat);
    } else {
      RemoveAllAbsent(s, pat);
    }
  }

  /** No proper suffix of the brand is also a prefix of it, so an occurrence
      of the brand can never straddle the end of the text in front of it. */
  lemma BrandHasNoBorder(j: int)
    requires 0 < j < |Brand|
    ensures Brand[j..] != Brand[..|Brand| - j]
  {
    if j == 2 || j == 6 {
      assert Brand[j..][1] != Brand[..|Brand| - j][1];
    } else {
      assert Brand[j..][0] != Brand[..|Brand| - j][0];
    }
  }

  /** Text without the brand followed by the brand does not start with the brand. */
  lemma BrandNotInFront(x: string)
    requires x != [] && !Occurs(x, Brand)
    ensures (x + Brand)[..|Brand|] != Brand
  {
    var s := x + Brand;
    var n := |Brand|;
    if s[..n] == Brand {
      if |x| >= n {
        assert x[0..n] == s[..n];
        assert OccursAt(x, Brand, 0);
      } else {
        assert Brand[|x|..] == s[|x|..n];
        assert s[|x|..n] == Brand[..n - |x|];
        BrandHasNoBorder(|x|);
      }
      assert false;
    }
  }

  /** A title that ends in the brand, and has no other occurrence of it, loses
      exactly the brand. */
  lemma {:induction false} RemoveBrandSuffix(x: string)
    requires !Occurs(x, Brand)
    ensures RemoveAll(x + Brand, Brand) == x
    decreases |x|
  {
    var s := x + Brand;
    var n := |Brand|;
    if x == [] {
      assert s[..n] == Brand;
      assert s[n..] == [];
    } else {
      BrandNotInFront(x);
      AbsentFromTail(x, Brand);
      assert s[1..] == x[1..] + Brand;
      RemoveBrandSuffix(x[1..]);
      assert [x[0]] + x[1..] == x;
    }
  }

  /** Python's `url.split('/')[-1]`: the text after the last `/`, or all of
      `url` when it has none. */
  function LastSegment(url: string): (r: string)
    ensures |r| <= |url| && r == url[|url| - |r|..]
    ensures '/' !in r
    ensures r == url || url[|url| - |r| - 1] == '/'
  {
    if url == [] || url[|url| - 1] == '/' then []
    else LastSegment(url[..|url| - 1]) + [url[|url| - 1]]
  }

  /** The title rule: remove every occurrence of the brand, then strip. */
  function Title(raw: string): (t: string)
    ensures IsStripped(t)
  {
    StripSpec(RemoveAll(raw, Brand));
    Strip(RemoveAll(raw, Brand))
  }

  /** A branded page title comes out as its stripped stem. */
  lemma TitleDropsBrand(x: string)
    requires !Occurs(x, Brand)
    ensures Title(x + Brand) == Strip(x)
  {
    RemoveBrandSuffix(x);
  }

  /** An unbranded title is only stripped. */
  lemma TitleOfUnbranded(x: string)
    requires !Occurs(x, Brand)
    ensures Title(x) == Strip(x)
  {
    RemoveAllAbsent(x, Brand);
  }
}
