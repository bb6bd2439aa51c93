/** The string operations the pipeline applies: Python's `in`, `str.replace`, ASCII `lower`,
    the two regular-expression substitutions on titles and bylines, and `str(int)`. */
module Text {

  /** `pat in s`: `pat` occurs in `s` as a contiguous run. */
  predicate Contains(s: string, pat: string)
    decreases |s|
  {
    |pat| <= |s| && (s[..|pat|] == pat || (|s| > 0 && Contains(s[1..], pat)))
  }

  lemma {:induction false} ContainsChar(s: string, c: char)
    ensures Contains(s, [c]) <==> c in s
  {
    if s != [] {
      ContainsChar(s[1..], c);
      assert s == [s[0]] + s[1..];
    }
  }

  /** `s.replace(pat, rep)`: every non-overlapping occurrence of `pat`, scanning left to
      right, is replaced by `rep`. */
  function ReplaceAll(s: string, pat: string, rep: string): (r: string)
    requires pat != []
    ensures !Contains(s, pat) ==> r == s
    ensures |pat| == |rep| ==> |r| == |s|
    decreases |s|
  {
    if |s| < |pat| then s
    else if s[..|pat|] == pat then rep + ReplaceAll(s[|pat|..], pat, rep)
    else [s[0]] + ReplaceAll(s[1..], pat, rep)
  }

  /** Replacing one character by another is a pointwise substitution. */
  lemma {:induction false} ReplaceCharPointwise(s: string, c: char, d: char)
    ensures |ReplaceAll(s, [c], [d])| == |s|
    ensures forall i :: 0 <= i < |s| ==>
      ReplaceAll(s, [c], [d])[i] == if s[i] == c then d else s[i]
  {
    if s != [] {
      ReplaceCharPointwise(s[1..], c, d);
      var rest := ReplaceAll(s[1..], [c], [d]);
      if s[0] == c {
        assert s[..1] == [c];
        assert ReplaceAll(s, [c], [d]) == [d] + rest;
      } else {
        assert s[..1] != [c];
        assert ReplaceAll(s, [c], [d]) == [s[0]] + rest;
      }
    }
  }

  /** Deleting a character from a string that starts with `x`: one step of the scan. */
  lemma DeleteCharCons(x: char, s: string, c: char)
    ensures ReplaceAll([x] + s, [c], []) == (if x == c then [] else [x]) + ReplaceAll(s, [c], [])
  {
    var t := [x] + s;
    assert t[..1] == [x] && t[1..] == s;
  }

  /** Deleting a character (`s.replace(c, '')`) leaves none of it, changes the string exactly when
      `c` occurred, and ignores a leading `c`. */
  lemma {:induction false} DeleteChar(s: string, c: char)
    ensures c !in ReplaceAll(s, [c], [])
    ensures ReplaceAll(s, [c], []) == s <==> c !in s
    ensures ReplaceAll([c] + s, [c], []) == ReplaceAll(s, [c], [])
  {
    DeleteCharCons(c, s, c);
    if s != [] {
      DeleteChar(s[1..], c);
      DeleteCharCons(s[0], s[1..], c);
      assert [s[0]] + s[1..] == s;
      ReplaceShrinks(s[1..], c);
    }
  }

  /** Replacing a single character works piece by piece. */
  lemma {:induction false} ReplaceCharConcat(a: string, b: string, c: char, rep: string)
    ensures ReplaceAll(a + b, [c], rep) == ReplaceAll(a, [c], rep) + ReplaceAll(b, [c], rep)
  {
    if a != [] {
      var ab := a + b;
      ReplaceCharConcat(a[1..], b, c, rep);
      assert ab[1..] == a[1..] + b;
      assert ab[..1] == a[..1] == [a[0]];
      if a[0] == c {
        assert ReplaceAll(ab, [c], rep) == rep + ReplaceAll(a[1..] + b, [c], rep);
        assert ReplaceAll(a, [c], rep) == rep + ReplaceAll(a[1..], [c], rep);
      } else {
        assert ReplaceAll(ab, [c], rep) == [a[0]] + ReplaceAll(a[1..] + b, [c], rep);
        assert ReplaceAll(a, [c], rep) == [a[0]] + ReplaceAll(a[1..], [c], rep);
      }
    } else {
      assert a + b == b;
    }
  }

  /** Deleting the one occurrence of `c` joins the text around it. */
  lemma DeleteOneChar(a: string, b: string, c: char)
    requires c !in a && c !in b
    ensures ReplaceAll(a + [c] + b, [c], []) == a + b
  {
    var tail := [c] + b;
    assert a + [c] + b == a + tail;
    ReplaceCharConcat(a, tail, c, []);
    DeleteChar(a, c);
    DeleteChar(b, c);
    assert ReplaceAll(tail, [c], []) == b;
    assert ReplaceAll(a, [c], []) == a;
  }

  lemma {:induction false} ReplaceShrinks(s: string, c: char)
    ensures |ReplaceAll(s, [c], [])| <= |s|
  {
    if s != [] {
      ReplaceShrinks(s[1..], c);
    }
  }

  function LowerChar(c: char): char
  {
    if 'A' <= c <= 'Z' then (c as int + 32) as char else c
  }

  /** `s.lower()` restricted to ASCII: upper-case letters become lower-case, nothing else moves. */
  function Lower(s: string): (r: string)
    ensures |r| == |s|
    ensures forall i :: 0 <= i < |s| ==> r[i] == LowerChar(s[i])
  {
    if s == [] then [] else [LowerChar(s[0])] + Lower(s[1..])
  }

  /** Slugging works piece by piece. */
  lemma SlugConcat(a: string, b: string)
    ensures Slug(a + b) == Slug(a) + Slug(b)
  {
    ReplaceCharConcat(a, b, ' ', ['-']);
    LowerConcat(ReplaceAll(a, [' '], ['-']), ReplaceAll(b, [' '], ['-']));
  }

  lemma LowerConcat(a: string, b: string)
    ensures Lower(a + b) == Lower(a) + Lower(b)
  {
    var whole, parts := Lower(a + b), Lower(a) + Lower(b);
    forall i | 0 <= i < |whole| ensures whole[i] == parts[i] {
      if i < |a| {
        assert (a + b)[i] == a[i];
      } else {
        assert (a + b)[i] == b[i - |a|];
      }
    }
    assert whole == parts;
  }

  /** A run occurs wherever it is placed. */
  lemma {:induction false} ContainsInside(x: string, pat: string, y: string)
    ensures Contains(x + pat + y, pat)
    decreases |x|
  {
    var s := x + pat + y;
    if x == [] {
      assert s[..|pat|] == pat;
    } else {
      assert s[1..] == x[1..] + pat + y;
      ContainsInside(x[1..], pat, y);
    }
  }

  /** Lower-casing twice is lower-casing once. */
  lemma LowerIdempotent(s: string)
    ensures Lower(Lower(s)) == Lower(s)
  {
    assert forall i :: 0 <= i < |s| ==> Lower(Lower(s))[i] == Lower(s)[i];
  }

  /** A lone `#` slugs to itself. */
  lemma SlugOfHash()
    ensures Slug("#") == "#"
  {
    ContainsChar("#", ' ');
    assert Lower("#") == "#";
  }

  /** The anchor id of a chapter: spaces become `-`, then the result is lower-cased. */
  function Slug(title: string): string
  {
    Lower(ReplaceAll(title, [' '], ['-']))
  }

  lemma SlugShape(title: string)
    ensures |Slug(title)| == |title|
    ensures ' ' !in Slug(title)
    ensures forall i :: 0 <= i < |title| ==>
      Slug(title)[i] == if title[i] == ' ' then '-' else LowerChar(title[i])
    ensures '#' in Slug(title) <==> '#' in title
  {
    ReplaceCharPointwise(title, ' ', '-');
    var s := Slug(title);
    if '#' in title {
      var i :| 0 <= i < |title| && title[i] == '#';
      assert s[i] == '#';
    }
  }

  /** The slug is not one-to-one: a space and a `-` in the same place give the same anchor, so
      two different titles can name one anchor. */
  lemma SpaceAndDashCollide(a: string, b: string)
    ensures a + " " + b != a + "-" + b
    ensures Slug(a + " " + b) == Slug(a + "-" + b)
  {
    assert (a + " " + b)[|a|] == ' ' && (a + "-" + b)[|a|] == '-';
    SlugConcat(a, " ");
    SlugConcat(a + " ", b);
    SlugConcat(a, "-");
    SlugConcat(a + "-", b);
    SlugShape(" ");
    SlugShape("-");
    assert Slug(" ") == "-" && Slug("-") == "-";
  }

  /** Nor does the slug see letter case: a title and its lower-cased form share one anchor. */
  lemma SlugIgnoresCase(title: string)
    ensures Slug(Lower(title)) == Slug(title)
  {
    SlugShape(title);
    SlugShape(Lower(title));
    assert forall i :: 0 <= i < |title| ==> Slug(Lower(title))[i] == Slug(title)[i];
  }

  /** The leading run of non-`|` characters (`[^|]*`, greedy) removed. */
  function SkipNonBar(s: string): (r: string)
    ensures |r| <= |s| && r == s[|s| - |r|..]
    ensures r == [] || r[0] == '|'
    ensures '|' !in s[..|s| - |r|]
  {
    if s == [] || s[0] == '|' then s else SkipNonBar(s[1..])
  }

  /** `re.sub(r' \| [^|]*', '', s)`: scanning left to right, each `" | "` together with the run
      of non-`|` characters after it is deleted; the scan resumes after the deleted text. */
  function StripTitleSuffix(s: string): (r: string)
    ensures |r| <= |s|
    ensures !Contains(s, " | ") ==> r == s
    decreases |s|
  {
    if |s| >= 3 && s[..3] == " | " then StripTitleSuffix(SkipNonBar(s[3..]))
    else if s == [] then []
    else [s[0]] + StripTitleSuffix(s[1..])
  }

  /** A character not followed by a `|` is kept, and the scan moves on. */
  lemma StripTitleSuffixStep(s: string)
    requires |s| >= 2 && s[1] != '|'
    ensures StripTitleSuffix(s) == [s[0]] + StripTitleSuffix(s[1..])
  {
    assert |s| >= 3 ==> s[..3] != " | ";
  }

  /** The separator and a site name without a bar are deleted whole. */
  lemma StripBareSite(site: string)
    requires '|' !in site
    ensures StripTitleSuffix(" | " + site) == []
  {
    var s := " | " + site;
    assert s[..3] == " | " && s[3..] == site;
    assert SkipNonBar(site) == [];
  }

  /** A title of the form `"X | Site"` loses its site suffix, provided neither part has a `|`. */
  lemma {:induction false} StripSiteSuffix(x: string, site: string)
    requires '|' !in x && '|' !in site
    ensures StripTitleSuffix(x + " | " + site) == x
  {
    var s := x + " | " + site;
    if x == [] {
      assert s == " | " + site;
      StripBareSite(site);
    } else {
      assert s[1] != '|';
      assert s[1..] == x[1..] + " | " + site;
      StripTitleSuffixStep(s);
      StripSiteSuffix(x[1..], site);
      assert x == [x[0]] + x[1..];
    }
  }

  /** A dot deleted at index `i`, which is the last character or stands just before a final newline. */
  ghost predicate DotDeletedAt(s: string, r: string, i: int)
  {
    && 0 <= i < |s| && i >= |s| - 2
    && s[i] == '.'
    && (i == |s| - 2 ==> s[|s| - 1] == '\n')
    && r == s[..i] + s[i + 1..]
  }

  /** `re.sub(r'[.]$', '', s)`. Python's `$` matches at the end and just before a final newline,
      so at most one dot goes, either the last character or the one before a final newline. */
  function StripFinalDot(s: string): (r: string)
    ensures r == s || DotDeletedAt(s, r, |s| - 1) || DotDeletedAt(s, r, |s| - 2)
    ensures |s| > 0 && s[|s| - 1] == '.' ==> r == s[..|s| - 1]
    ensures |s| > 1 && s[|s| - 2..] == ".\n" ==> r == s[..|s| - 2] + "\n"
    ensures |s| > 0 && s[|s| - 1] != '.' && !(|s| > 1 && s[|s| - 2..] == ".\n") ==> r == s
  {
    if |s| > 0 && s[|s| - 1] == '.' then s[..|s| - 1]
    else if |s| > 1 && s[|s| - 2] == '.' && s[|s| - 1] == '\n' then
      assert s[..|s| - 2] + s[|s| - 1..] == s[..|s| - 2] + "\n";
      s[..|s| - 2] + "\n"
    else s
  }

  function Digit(d: nat): char
    requires d < 10
  {
    ('0' as int + d) as char
  }

  /** `str(n)` for a natural number: its decimal digits, most significant first. */
  function DecimalString(n: nat): (r: string)
    ensures |r| >= 1
    ensures forall i :: 0 <= i < |r| ==> '0' <= r[i] <= '9'
    ensures n < 10 ==> |r| == 1
  {
    if n < 10 then [Digit(n)] else DecimalString(n / 10) + [Digit(n % 10)]
  }

  /** The number a string of decimal digits denotes. */
  function DigitsValue(s: string): nat
    requires forall i :: 0 <= i < |s| ==> '0' <= s[i] <= '9'
  {
    if s == [] then 0 else DigitsValue(s[..|s| - 1]) * 10 + (s[|s| - 1] as int - '0' as int)
  }

  /** Reading the digits back gives the number, and only zero has a leading `0`. */
  lemma {:induction false} DecimalRoundTrip(n: nat)
    ensures DigitsValue(DecimalString(n)) == n
    ensures DecimalString(n)[0] == '0' <==> n == 0
  {
    var r := DecimalString(n);
    if n >= 10 {
      DecimalRoundTrip(n / 10);
      var init := DecimalString(n / 10);
      assert r[..|r| - 1] == init;
      assert r[0] == init[0];
    }
  }
}
