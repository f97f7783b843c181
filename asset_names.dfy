/** The `name(url)` callbacks of the image and font loaders compute a path
    relative to `src` and then rewrite it with `.replace(/[\\\/]+/g, '/')`:
    every run of forward slashes and backslashes becomes one forward slash,
    so that Windows paths yield Unix-style output names. The relative path
    itself comes from Node's `path` module and is a parameter here; this
    module models the rewrite. */
module AssetNames {

  /** A character of the class `[\\\/]` */
  predicate IsSep(c: char) {
    c == '/' || c == '\\'
  }

  predicate NoSeps(s: string) {
    forall i :: 0 <= i < |s| ==> !IsSep(s[i])
  }

  predicate AllSeps(s: string) {
    forall i :: 0 <= i < |s| ==> IsSep(s[i])
  }

  /** No two adjacent forward slashes */
  predicate NoDoubleSlash(s: string) {
    forall i :: 0 <= i < |s| - 1 ==> !(s[i] == '/' && s[i + 1] == '/')
  }

  /** `url.replace(/[\\\/]+/g, '/')`: the global regular expression matches
      each maximal run of separators, left to right, and the run is replaced
      by a single `/`. Read left to right: a separator that another separator
      follows is dropped, and the last separator of a run is written as `/`. */
  function NormaliseSeparators(s: string): (r: string)
    ensures r == [] <==> s == []
    ensures s != [] ==> (r[0] == '/' <==> IsSep(s[0]))
  {
    if s == [] then []
    else if IsSep(s[0]) && |s| > 1 && IsSep(s[1]) then NormaliseSeparators(s[1..])
    else [if IsSep(s[0]) then '/' else s[0]] + NormaliseSeparators(s[1..])
  }

  /** The output never holds a backslash or two slashes in a row. */
  lemma {:induction false} NormalisedShape(s: string)
    ensures '\\' !in NormaliseSeparators(s)
    ensures NoDoubleSlash(NormaliseSeparators(s))
  {
    if s != [] {
      NormalisedShape(s[1..]);
      var t := NormaliseSeparators(s[1..]);
      var r := NormaliseSeparators(s);
      if !(IsSep(s[0]) && |s| > 1 && IsSep(s[1])) {
        assert r == [if IsSep(s[0]) then '/' else s[0]] + t;
        forall i | 0 <= i < |r| - 1 ensures !(r[i] == '/' && r[i + 1] == '/') {
          if i > 0 { assert r[i] == t[i - 1] && r[i + 1] == t[i]; }
        }
      }
    }
  }

  /** A maximal run of separators, however long and however mixed, becomes
      exactly one `/`. */
  lemma {:induction false} RunBecomesOneSlash(run: string)
    requires run != [] && AllSeps(run)
    ensures NormaliseSeparators(run) == ['/']
  {
    if |run| > 1 {
      RunBecomesOneSlash(run[1..]);
    }
  }

  /** The rewrite works piece by piece: cutting the input anywhere except
      inside a run of separators, the output is the outputs of the two pieces
      put together. With RunBecomesOneSlash and NonSeparatorKept this says
      that each maximal run turns into one `/` and every other character is
      kept in place. */
  lemma {:induction false} NormaliseConcat(x: string, y: string)
    requires !(x != [] && y != [] && IsSep(x[|x| - 1]) && IsSep(y[0]))
    ensures NormaliseSeparators(x + y) == NormaliseSeparators(x) + NormaliseSeparators(y)
  {
    if x == [] {
      assert x + y == y;
    } else {
      var xy := x + y;
      assert xy[1..] == x[1..] + y;
      assert |x| == 1 ==> x[|x| - 1] == x[0];
      assert |x| > 1 ==> xy[1] == x[1] && x[1..][|x| - 2] == x[|x| - 1];
      assert |x| == 1 && y != [] ==> xy[1] == y[0];
      NormaliseConcat(x[1..], y);
    }
  }

  /** A character that is not a separator passes through unchanged. */
  lemma NonSeparatorKept(c: char)
    requires !IsSep(c)
    ensures NormaliseSeparators([c]) == [c]
  {
  }

  /** A string that already has no backslash and no doubled slash is a
      fixed point of the rewrite. */
  lemma {:induction false} NormalisedIsFixed(s: string)
    requires '\\' !in s && NoDoubleSlash(s)
    ensures NormaliseSeparators(s) == s
  {
    if s != [] {
      var rest := s[1..];
      assert '\\' !in rest && NoDoubleSlash(rest) by {
        forall i | 0 <= i < |rest| - 1 ensures !(rest[i] == '/' && rest[i + 1] == '/') {
          assert rest[i] == s[i + 1] && rest[i + 1] == s[i + 2];
        }
      }
      NormalisedIsFixed(rest);
      if IsSep(s[0]) {
        assert rest == [] || !IsSep(rest[0]) by {
          if rest != [] { assert rest[0] == s[1]; }
        }
      }
    }
  }

  /** Applying the rewrite twice gives what applying it once gives. */
  lemma {:induction false} Idempotent(s: string)
    ensures NormaliseSeparators(NormaliseSeparators(s)) == NormaliseSeparators(s)
  {
    NormalisedShape(s);
    NormalisedIsFixed(NormaliseSeparators(s));
  }

  /** A path with neither `/` nor `\` is left as it is. */
  lemma {:induction false} NoSeparatorsUnchanged(s: string)
    requires NoSeps(s)
    ensures NormaliseSeparators(s) == s
  {
    assert '\\' !in s && NoDoubleSlash(s) by {
      forall i | 0 <= i < |s| ensures s[i] != '\\' { assert !IsSep(s[i]); }
    }
    NormalisedIsFixed(s);
  }
}
