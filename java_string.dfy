/**
 The few `java.lang.String` operations the service relies on, with Java's
 semantics written out: `split(",")` (trailing empty strings dropped),
 `trim()`, `equalsIgnoreCase` (ASCII case folding) and `replaceAll` with a
 literal pattern.
 */
module JavaString {

  /** The pieces of `s` between commas, before Java drops trailing empty
      strings: always one more piece than `s` has commas. */
  function Pieces(s: string): (r: seq<string>)
    ensures |r| >= 1
  {
    if s == [] then [[]]
    else
      var rest := Pieces(s[1..]);
      if s[0] == ',' then [[]] + rest
      else [[s[0]] + rest[0]] + rest[1..]
  }

  /** Pieces glued back together with a comma between consecutive ones. */
  function Join(ps: seq<string>): string
  {
    if ps == [] then []
    else if |ps| == 1 then ps[0]
    else ps[0] + "," + Join(ps[1..])
  }

  /** The longest prefix of `ps` that does not end in an empty string. */
  function DropTrailingEmpty(ps: seq<string>): (r: seq<string>)
    ensures r <= ps
    ensures r == [] || r[|r| - 1] != []
    ensures forall i :: |r| <= i < |ps| ==> ps[i] == []
  {
    if ps != [] && ps[|ps| - 1] == [] then DropTrailingEmpty(ps[..|ps| - 1]) else ps
  }

  /** `s.split(",")`: a string without a comma comes back whole (even the
      empty string); otherwise the pieces, less the trailing empty ones. */
  function Split(s: string): seq<string>
  {
    if ',' in s then DropTrailingEmpty(Pieces(s)) else [s]
  }

  predicate AllCommas(s: string)
  {
    forall i :: 0 <= i < |s| ==> s[i] == ','
  }

  lemma {:induction false} PiecesHaveNoComma(s: string)
    ensures forall p :: p in Pieces(s) ==> ',' !in p
  {
    if s != [] {
      PiecesHaveNoComma(s[1..]);
      var rest := Pieces(s[1..]);
      if s[0] != ',' {
        assert ',' !in [s[0]] + rest[0];
        assert forall p :: p in rest[1..] ==> p in rest;
      }
    }
  }

  lemma JoinHeadConcat(x: string, y: string, qs: seq<string>)
    ensures Join([x + y] + qs) == x + Join([y] + qs)
  {
    if qs != [] {
      assert ([x + y] + qs)[1..] == qs;
      assert ([y] + qs)[1..] == qs;
    }
  }

  lemma {:induction false} JoinPieces(s: string)
    ensures Join(Pieces(s)) == s
  {
    if s != [] {
      JoinPieces(s[1..]);
      var rest := Pieces(s[1..]);
      if s[0] == ',' {
        assert ([[]] + rest)[1..] == rest;
        assert Join([[]] + rest) == [] + "," + Join(rest);
      } else {
        JoinHeadConcat([s[0]], rest[0], rest[1..]);
        assert [rest[0]] + rest[1..] == rest;
        assert [s[0]] + s[1..] == s;
      }
    }
  }

  lemma {:induction false} PiecesOfAllCommas(s: string)
    requires AllCommas(s)
    ensures forall p :: p in Pieces(s) ==> p == []
  {
    if s != [] {
      PiecesOfAllCommas(s[1..]);
    }
  }

  lemma {:induction false} JoinSnoc(ps: seq<string>, x: string)
    requires ps != []
    ensures Join(ps + [x]) == Join(ps) + "," + x
  {
    if |ps| > 1 {
      JoinSnoc(ps[1..], x);
      assert (ps + [x])[1..] == ps[1..] + [x];
    }
  }

  /** Dropping trailing empty pieces removes only trailing commas from the
      joined text. */
  lemma {:induction false} JoinDropTrailingEmpty(ps: seq<string>)
    ensures Join(DropTrailingEmpty(ps)) <= Join(ps)
    ensures AllCommas(Join(ps)[|Join(DropTrailingEmpty(ps))|..])
    decreases |ps|
  {
    if ps != [] && ps[|ps| - 1] == [] {
      var q := ps[..|ps| - 1];
      assert ps == q + [[]];
      JoinDropTrailingEmpty(q);
      if q != [] {
        JoinSnoc(q, []);
      }
    }
  }

  /** The round trip of `split`: joining the pieces back gives `s` up to
      the trailing commas that `split` drops, and when `s` has a comma no
      empty piece is left at the end. */
  lemma SplitJoin(s: string)
    ensures Join(Split(s)) <= s
    ensures AllCommas(s[|Join(Split(s))|..])
    ensures ',' in s && Split(s) != [] ==> Split(s)[|Split(s)| - 1] != []
  {
    if ',' in s {
      JoinPieces(s);
      JoinDropTrailingEmpty(Pieces(s));
    }
  }

  /** No element of `split(",")` contains a comma. */
  lemma SplitHasNoComma(s: string)
    ensures forall p :: p in Split(s) ==> ',' !in p
  {
    if ',' in s {
      PiecesHaveNoComma(s);
    }
  }

  /** `split(",")` yields no element at all exactly when the string is
      non-empty and made only of commas (so indexing element 0 throws). */
  lemma SplitEmptyIff(s: string)
    ensures Split(s) == [] <==> s != [] && AllCommas(s)
  {
    if Split(s) == [] {
      SplitJoin(s);
    }
    if s != [] && AllCommas(s) {
      assert s[0] == ',';
      PiecesOfAllCommas(s);
      var ps := Pieces(s);
      var r := DropTrailingEmpty(ps);
      forall i | 0 <= i < |r| ensures r[i] == [] {
        assert r[i] == ps[i] && ps[i] in ps;
      }
    }
  }

  /** `trim()` keeps everything between the first and the last character
      above U+0020. */
  function TrimStart(s: string): (r: nat)
    ensures r <= |s|
    ensures forall k :: 0 <= k < r ==> s[k] <= ' '
    ensures r < |s| ==> s[r] > ' '
  {
    if s == [] || s[0] > ' ' then 0 else 1 + TrimStart(s[1..])
  }

  function TrimEnd(s: string, lo: nat): (r: nat)
    requires lo <= |s|
    ensures lo <= r <= |s|
    ensures forall k :: r <= k < |s| ==> s[k] <= ' '
    ensures r > lo ==> s[r - 1] > ' '
    decreases |s|
  {
    if |s| == lo || s[|s| - 1] > ' ' then |s| else TrimEnd(s[..|s| - 1], lo)
  }

  /** `s.trim()`: the result is empty or starts and ends above U+0020, and
      only characters at or below U+0020 were removed around it. */
  function Trim(s: string): (r: string)
    ensures r == [] || (r[0] > ' ' && r[|r| - 1] > ' ')
    ensures r == [] <==> forall k :: 0 <= k < |s| ==> s[k] <= ' '
  {
    var lo := TrimStart(s);
    s[lo..TrimEnd(s, lo)]
  }

  predicate Blank(s: string)
  {
    forall k :: 0 <= k < |s| ==> s[k] <= ' '
  }

  /** Trimming undoes any padding of a word that has no padding of its own. */
  lemma TrimPadded(left: string, w: string, right: string)
    requires Blank(left) && Blank(right)
    requires w == [] || (w[0] > ' ' && w[|w| - 1] > ' ')
    ensures Trim(left + w + right) == w
  {
    var s := left + w + right;
    if w == [] {
      assert forall k :: 0 <= k < |s| ==> s[k] == if k < |left| then left[k] else right[k - |left|];
    } else {
      TrimStartPadded(left, w + right);
      assert s == left + (w + right);
      var lo := TrimStart(s);
      var hi := |left| + |w|;
      assert forall k :: hi <= k < |s| ==> s[k] == right[k - hi];
      TrimEndPadded(s, lo, hi);
      assert s[lo..hi] == w;
    }
  }

  lemma {:induction false} TrimStartPadded(left: string, rest: string)
    requires Blank(left)
    requires rest != [] && rest[0] > ' '
    ensures TrimStart(left + rest) == |left|
  {
    if left != [] {
      assert (left + rest)[1..] == left[1..] + rest;
      TrimStartPadded(left[1..], rest);
    }
  }

  lemma {:induction false} TrimEndPadded(s: string, lo: nat, hi: nat)
    requires lo < hi <= |s|
    requires s[hi - 1] > ' '
    requires forall k :: hi <= k < |s| ==> s[k] <= ' '
    ensures TrimEnd(s, lo) == hi
    decreases |s|
  {
    if |s| > hi {
      TrimEndPadded(s[..|s| - 1], lo, hi);
    }
  }

  /** ASCII case folding, as `equalsIgnoreCase` does it on ASCII text. */
  function ToLowerAscii(c: char): (r: char)
    ensures ('A' <= c <= 'Z') == (r != c)
    ensures 'a' <= r <= 'z' <==> 'A' <= c <= 'Z' || 'a' <= c <= 'z'
  {
    if 'A' <= c <= 'Z' then (c as int + 32) as char else c
  }

  predicate EqualsIgnoreCase(a: string, b: string)
  {
    |a| == |b| && forall i :: 0 <= i < |a| ==> ToLowerAscii(a[i]) == ToLowerAscii(b[i])
  }

  predicate HasNoLetter(s: string)
  {
    forall i :: 0 <= i < |s| ==> !('A' <= s[i] <= 'Z' || 'a' <= s[i] <= 'z')
  }

  /** Against a string without letters, ignoring case changes nothing. */
  lemma EqualsIgnoreCaseNoLetter(a: string, b: string)
    requires HasNoLetter(a)
    ensures EqualsIgnoreCase(a, b) <==> a == b
  {
    if EqualsIgnoreCase(a, b) {
      forall i | 0 <= i < |a| ensures a[i] == b[i] {
        assert ToLowerAscii(b[i]) == a[i];
      }
    }
  }

  /** `s.replaceAll(pat, rep)` for a literal pattern: every occurrence,
      scanned left to right without overlap, is replaced. */
  function ReplaceAll(s: string, pat: string, rep: string): string
    requires pat != []
    decreases |s|
  {
    if |s| < |pat| then s
    else if s[..|pat|] == pat then rep + ReplaceAll(s[|pat|..], pat, rep)
    else [s[0]] + ReplaceAll(s[1..], pat, rep)
  }

  /** Text that cannot start the pattern passes through unchanged. */
  lemma {:induction false} ReplaceAllSkips(a: string, x: string, pat: string, rep: string)
    requires pat != [] && pat[0] !in a
    ensures ReplaceAll(a + x, pat, rep) == a + ReplaceAll(x, pat, rep)
  {
    if a != [] {
      var s := a + x;
      if |s| < |pat| {
        assert ReplaceAll(x, pat, rep) == x;
        assert ReplaceAll(s, pat, rep) == s;
      } else {
        assert s[..|pat|][0] != pat[0];
        assert s[1..] == a[1..] + x;
        assert pat[0] !in a[1..];
        ReplaceAllSkips(a[1..], x, pat, rep);
        assert ReplaceAll(s, pat, rep) == [s[0]] + ReplaceAll(s[1..], pat, rep);
        assert [a[0]] + (a[1..] + ReplaceAll(x, pat, rep)) == a + ReplaceAll(x, pat, rep);
      }
    } else {
      assert a + x == x;
    }
  }
}
