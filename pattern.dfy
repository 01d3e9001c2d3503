/**
 * Deriving a route's `parts` from its pattern (router.js:16-18, 140-154).
 *
 * The source runs three global regular-expression replacements over the
 * pattern, splits the result on `/` and drops the empty segments. Each
 * replacement is modelled here as a scanner over the exact token shape its
 * regular expression matches, trying every position from left to right and
 * resuming after each match, as a global `String.prototype.replace` does.
 */
module Pattern {
  import opened Wrappers

  /** `\w` of a regular expression without the unicode flag. */
  predicate IsWord(c: char) {
    ('a' <= c <= 'z') || ('A' <= c <= 'Z') || ('0' <= c <= '9') || c == '_'
  }

  /** The characters that `.` does not match: the ECMAScript line terminators. */
  predicate IsLineTerminator(c: char) {
    c == '\n' || c == '\r' || c == '\U{2028}' || c == '\U{2029}'
  }

  /** Length of the greedy `\w+` (or `\w*`) at the start of `s`. */
  function WordRun(s: string): (n: nat)
    ensures n <= |s|
    ensures forall i :: 0 <= i < n ==> IsWord(s[i])
    ensures n < |s| ==> !IsWord(s[n])
  {
    if |s| > 0 && IsWord(s[0]) then 1 + WordRun(s[1..]) else 0
  }

  // ---------------------------------------------------------------------
  // Pass 1: `\((.*?)\)` replaced by ''
  // ---------------------------------------------------------------------

  /** Where the lazy `.*?\)` stops in `s`: the first `)` not preceded by a line terminator. */
  function CloseAt(s: string): (r: Option<nat>)
    ensures r.Some? ==> r.value < |s| && s[r.value] == ')'
    ensures r.Some? ==> forall i :: 0 <= i < r.value ==> s[i] != ')' && !IsLineTerminator(s[i])
    ensures r.None? ==> forall i :: 0 <= i < |s| && s[i] == ')' ==> exists j :: 0 <= j < i && IsLineTerminator(s[j])
  {
    if |s| == 0 then None
    else if s[0] == ')' then Some(0)
    else if IsLineTerminator(s[0]) then None
    else match CloseAt(s[1..])
      case Some(k) => Some(k + 1)
      case None =>
        assert forall i :: 1 <= i < |s| && s[i] == ')' ==> exists j :: 0 <= j < i && IsLineTerminator(s[j]) by {
          forall i | 1 <= i < |s| && s[i] == ')'
            ensures exists j :: 0 <= j < i && IsLineTerminator(s[j])
          {
            assert s[1..][i - 1] == ')';
            var j :| 0 <= j < i - 1 && IsLineTerminator(s[1..][j]);
            assert IsLineTerminator(s[j + 1]);
          }
        }
        None
  }

  /** Length of the optional group `(…)` that starts `s`, or 0 when no match starts there. */
  function OptionalAt(s: string): (n: nat)
    ensures n == 0 || (2 <= n <= |s| && s[0] == '(' && s[n - 1] == ')')
  {
    if |s| > 0 && s[0] == '(' then
      match CloseAt(s[1..])
      case Some(k) => k + 2
      case None => 0
    else 0
  }

  /** `s.replace(/\((.*?)\)/g, '')`: every optional group removed. */
  function StripOptional(s: string): (r: string)
    ensures |r| <= |s|
    decreases |s|
  {
    if |s| == 0 then s
    else if OptionalAt(s) > 0 then StripOptional(s[OptionalAt(s)..])
    else [s[0]] + StripOptional(s[1..])
  }

  // ---------------------------------------------------------------------
  // Pass 2: `(\(\?)?:\w+` replaced by the match when `(\(\?)` took part, by '' otherwise
  // ---------------------------------------------------------------------

  /** Length of a `(?:word` token that starts `s` (the replacer returns it unchanged), or 0. */
  function KeptNamedAt(s: string): (n: nat)
    ensures n == 0 || (4 <= n <= |s|)
  {
    if |s| >= 4 && s[0] == '(' && s[1] == '?' && s[2] == ':' && IsWord(s[3]) then 3 + WordRun(s[3..]) else 0
  }

  /** Length of a token `sigil` + `\w+` that starts `s`, or 0: `:word` here (the replacer removes it), `*word` in pass 3. */
  function TokenAt(s: string, sigil: char): (n: nat)
    ensures n == 0 || (2 <= n <= |s|)
  {
    if |s| >= 2 && s[0] == sigil && IsWord(s[1]) then 1 + WordRun(s[1..]) else 0
  }

  /** How far one scanning step of pass 2 advances: over a token, or over one character. */
  function NamedSkip(s: string): (n: nat)
    requires |s| > 0
    ensures 1 <= n <= |s|
  {
    if KeptNamedAt(s) > 0 then KeptNamedAt(s) else if TokenAt(s, ':') > 0 then TokenAt(s, ':') else 1
  }

  /** What one scanning step of pass 2 outputs: a kept token, nothing for a removed one, or the character. */
  function NamedKeep(s: string): string
    requires |s| > 0
  {
    if KeptNamedAt(s) > 0 then s[..KeptNamedAt(s)] else if TokenAt(s, ':') > 0 then "" else [s[0]]
  }

  /** The second replacement: every `:word` removed, every `(?:word` kept. */
  function StripNamed(s: string): (r: string)
    ensures |r| <= |s|
    decreases |s|
  {
    if |s| == 0 then s else NamedKeep(s) + StripNamed(s[NamedSkip(s)..])
  }

  // ---------------------------------------------------------------------
  // Pass 3: `\*\w+` replaced by ''
  // ---------------------------------------------------------------------

  /** How far one scanning step of pass 3 advances. */
  function SplatSkip(s: string): (n: nat)
    requires |s| > 0
    ensures 1 <= n <= |s|
  {
    if TokenAt(s, '*') > 0 then TokenAt(s, '*') else 1
  }

  /** What one scanning step of pass 3 outputs. */
  function SplatKeep(s: string): string
    requires |s| > 0
  {
    if TokenAt(s, '*') > 0 then "" else [s[0]]
  }

  /** `s.replace(/\*\w+/g, '')`: every wildcard token removed. */
  function StripSplat(s: string): (r: string)
    ensures |r| <= |s|
    decreases |s|
  {
    if |s| == 0 then s else SplatKeep(s) + StripSplat(s[SplatSkip(s)..])
  }

  // ---------------------------------------------------------------------
  // Splitting and filtering
  // ---------------------------------------------------------------------

  /** `s.split('/')`: the pieces between the separators, empty ones included. */
  function Split(s: string): (r: seq<string>)
    ensures |r| >= 1
    ensures forall k :: 0 <= k < |r| ==> '/' !in r[k]
  {
    if |s| == 0 then [""]
    else
      var rest := Split(s[1..]);
      if s[0] == '/' then [""] + rest else [[s[0]] + rest[0]] + rest[1..]
  }

  /** `parts.join('/')`, the inverse of `Split`. */
  function Join(parts: seq<string>): string
    requires |parts| >= 1
  {
    if |parts| == 1 then parts[0] else parts[0] + "/" + Join(parts[1..])
  }

  /** The filter at router.js:147-149: the non-empty pieces, in order. */
  function DropEmpty(xs: seq<string>): (r: seq<string>)
    ensures |r| <= |xs|
    ensures forall k :: 0 <= k < |r| ==> r[k] != "" && r[k] in xs
  {
    if |xs| == 0 then []
    else
      var rest := DropEmpty(xs[1..]);
      assert forall x :: x in xs[1..] ==> x in xs;
      if xs[0] == "" then rest else [xs[0]] + rest
  }

  /** The second and third passes, which never look past a `/`. */
  function StripParams(seg: string): string {
    StripSplat(StripNamed(seg))
  }

  function StripEach(xs: seq<string>): (r: seq<string>)
    ensures |r| == |xs|
  {
    if |xs| == 0 then [] else [StripParams(xs[0])] + StripEach(xs[1..])
  }

  /** The parts generated for a route without `parts` (router.js:141-149). */
  function DeriveParts(route: string): seq<string> {
    DropEmpty(Split(StripSplat(StripNamed(StripOptional(route)))))
  }

  /** The parts given as one string (router.js:153): split verbatim. */
  function SplitParts(parts: string): seq<string> {
    Split(parts)
  }

  // ---------------------------------------------------------------------
  // Split and Join
  // ---------------------------------------------------------------------

  lemma {:induction false} JoinSplit(s: string)
    ensures Join(Split(s)) == s
    decreases |s|
  {
    if |s| > 0 {
      var rest := Split(s[1..]);
      JoinSplit(s[1..]);
      if s[0] == '/' {
        assert Split(s)[1..] == rest;
      } else if |rest| == 1 {
        assert Split(s) == [[s[0]] + rest[0]];
      } else {
        assert Split(s)[1..] == rest[1..];
        assert Join(rest) == rest[0] + "/" + Join(rest[1..]);
      }
    }
  }

  lemma {:induction false} SplitJoin(parts: seq<string>)
    requires |parts| >= 1
    requires forall k :: 0 <= k < |parts| ==> '/' !in parts[k]
    ensures Split(Join(parts)) == parts
    decreases |parts|
  {
    if |parts| == 1 {
      SplitNoSlash(parts[0]);
    } else {
      SplitJoin(parts[1..]);
      SplitCons(parts[0], Join(parts[1..]));
    }
  }

  /** A piece without `/` splits to itself. */
  lemma {:induction false} SplitNoSlash(a: string)
    requires '/' !in a
    ensures Split(a) == [a]
    decreases |a|
  {
    if |a| > 0 {
      assert a[0] in a;
      assert forall c :: c in a[1..] ==> c in a;
      SplitNoSlash(a[1..]);
      assert [a[0]] + a[1..] == a;
    }
  }

  /** Splitting at the first separator. */
  lemma {:induction false} SplitCons(a: string, b: string)
    requires '/' !in a
    ensures Split(a + "/" + b) == [a] + Split(b)
    decreases |a|
  {
    if |a| == 0 {
      assert a + "/" + b == "/" + b;
      assert ("/" + b)[1..] == b;
    } else {
      assert a[0] in a;
      assert forall c :: c in a[1..] ==> c in a;
      SplitCons(a[1..], b);
      assert (a + "/" + b)[1..] == a[1..] + "/" + b;
      assert [a[0]] + a[1..] == a;
    }
  }

  // ---------------------------------------------------------------------
  // No token survives its pass
  // ---------------------------------------------------------------------

  /** Text without a reachable `)` stays so once its groups are stripped. */
  lemma {:induction false} NoCloseKept(s: string)
    requires CloseAt(s).None?
    ensures CloseAt(StripOptional(s)).None?
    decreases |s|
  {
    if |s| > 0 {
      if !IsLineTerminator(s[0]) {
        NoCloseKept(s[1..]);
      }
    }
  }

  /** After pass 1, no `(` is followed by a `)` that the lazy group could reach. */
  lemma {:induction false} StripOptionalClean(s: string)
    ensures forall q :: 0 <= q < |StripOptional(s)| && StripOptional(s)[q] == '(' ==> CloseAt(StripOptional(s)[q + 1..]).None?
    decreases |s|
  {
    if |s| > 0 {
      var n := OptionalAt(s);
      if n > 0 {
        StripOptionalClean(s[n..]);
      } else {
        var rest := StripOptional(s[1..]);
        var r := StripOptional(s);
        assert r == [s[0]] + rest;
        StripOptionalClean(s[1..]);
        forall q | 0 <= q < |r| && r[q] == '('
          ensures CloseAt(r[q + 1..]).None?
        {
          if q == 0 {
            NoCloseKept(s[1..]);
            assert r[1..] == rest;
          } else {
            assert r[q] == rest[q - 1];
            assert r[q + 1..] == rest[q..];
          }
        }
      }
    }
  }

  /** Pass 1 leaves text that has no optional group unchanged. */
  lemma {:induction false} StripOptionalIdentity(s: string)
    requires forall q :: 0 <= q < |s| && s[q] == '(' ==> CloseAt(s[q + 1..]).None?
    ensures StripOptional(s) == s
    decreases |s|
  {
    if |s| > 0 {
      assert OptionalAt(s) == 0 by {
        if s[0] == '(' { assert s[1..] == s[0 + 1..]; }
      }
      forall q | 0 <= q < |s[1..]| && s[1..][q] == '('
        ensures CloseAt(s[1..][q + 1..]).None?
      {
        assert s[q + 1] == '(';
        assert s[1..][q + 1..] == s[q + 1 + 1..];
      }
      StripOptionalIdentity(s[1..]);
      assert s == [s[0]] + s[1..];
    }
  }

  /** Pass 1 is idempotent. */
  lemma StripOptionalIdempotent(s: string)
    ensures StripOptional(StripOptional(s)) == StripOptional(s)
  {
    StripOptionalClean(s);
    StripOptionalIdentity(StripOptional(s));
  }

  /** Text that starts with a non-word character still does once its `:word` tokens are gone. */
  lemma {:induction false} NamedKeepsNonWordHead(s: string)
    requires |s| > 0 && !IsWord(s[0])
    ensures StripNamed(s) == [] || !IsWord(StripNamed(s)[0])
    decreases |s|
  {
    if KeptNamedAt(s) == 0 && TokenAt(s, ':') > 0 {
      var n := TokenAt(s, ':');
      if n < |s| {
        assert s[n..][0] == s[1..][n - 1];
        NamedKeepsNonWordHead(s[n..]);
      }
    }
  }

  /** No bare named token: every `:` followed by a word character is the `:` of a kept `(?:word`. */
  predicate NamedClean(r: string) {
    forall q :: 0 <= q < |r| - 1 && r[q] == ':' && IsWord(r[q + 1]) ==> 2 <= q && r[q - 2] == '(' && r[q - 1] == '?'
  }

  lemma KeptThenClean(tok: string, rest: string)
    requires |tok| >= 4 && tok[0] == '(' && tok[1] == '?' && tok[2] == ':'
    requires forall i :: 3 <= i < |tok| ==> IsWord(tok[i])
    requires NamedClean(rest)
    ensures NamedClean(tok + rest)
  {
    var r := tok + rest;
    forall q | 0 <= q < |r| - 1 && r[q] == ':' && IsWord(r[q + 1])
      ensures 2 <= q && r[q - 2] == '(' && r[q - 1] == '?'
    {
      if q >= |tok| {
        assert r[q] == rest[q - |tok|] && r[q + 1] == rest[q - |tok| + 1];
        assert r[q - 2] == rest[q - |tok| - 2] && r[q - 1] == rest[q - |tok| - 1];
      }
    }
  }

  lemma ConsClean(c: char, rest: string)
    requires NamedClean(rest)
    requires c == ':' && |rest| > 0 ==> !IsWord(rest[0])
    ensures NamedClean([c] + rest)
  {
    var r := [c] + rest;
    forall q | 0 <= q < |r| - 1 && r[q] == ':' && IsWord(r[q + 1])
      ensures 2 <= q && r[q - 2] == '(' && r[q - 1] == '?'
    {
      assert r[q + 1] == rest[q];
      if q > 0 {
        assert r[q] == rest[q - 1];
        assert r[q - 2] == rest[q - 3] && r[q - 1] == rest[q - 2];
      }
    }
  }

  /** After pass 2 no bare `:word` token is left. */
  lemma {:induction false} StripNamedClean(s: string)
    ensures NamedClean(StripNamed(s))
    decreases |s|
  {
    if |s| > 0 {
      var k := KeptNamedAt(s);
      if k > 0 {
        StripNamedClean(s[k..]);
        assert forall i :: 3 <= i < k ==> s[..k][i] == s[3..][i - 3];
        KeptThenClean(s[..k], StripNamed(s[k..]));
      } else if TokenAt(s, ':') > 0 {
        StripNamedClean(s[TokenAt(s, ':')..]);
      } else {
        StripNamedClean(s[1..]);
        if s[0] == ':' && |s| > 1 {
          assert s[1..][0] == s[1];
          NamedKeepsNonWordHead(s[1..]);
        }
        ConsClean(s[0], StripNamed(s[1..]));
      }
    }
  }

  /** The counterpart of NamedKeepsNonWordHead for pass 3. */
  lemma {:induction false} SplatKeepsNonWordHead(s: string)
    requires |s| > 0 && !IsWord(s[0])
    ensures StripSplat(s) == [] || !IsWord(StripSplat(s)[0])
    decreases |s|
  {
    var n := TokenAt(s, '*');
    if n > 0 && n < |s| {
      assert s[n..][0] == s[1..][n - 1];
      SplatKeepsNonWordHead(s[n..]);
    }
  }

  /** No text without a wildcard token: no `*` followed by a word character. */
  predicate NoSplat(s: string) {
    forall q :: 0 <= q < |s| - 1 && s[q] == '*' ==> !IsWord(s[q + 1])
  }

  /** After pass 3 no wildcard token is left. */
  lemma {:induction false} StripSplatClean(s: string)
    ensures NoSplat(StripSplat(s))
    decreases |s|
  {
    if |s| > 0 {
      var r := StripSplat(s);
      if TokenAt(s, '*') > 0 {
        StripSplatClean(s[TokenAt(s, '*')..]);
      } else {
        var rest := StripSplat(s[1..]);
        StripSplatClean(s[1..]);
        assert r == [s[0]] + rest;
        forall q | 0 <= q < |r| - 1 && r[q] == '*'
          ensures !IsWord(r[q + 1])
        {
          if q == 0 {
            SplatKeepsNonWordHead(s[1..]);
            assert r[1] == rest[0];
          } else {
            assert r[q] == rest[q - 1] && r[q + 1] == rest[q];
          }
        }
      }
    }
  }

  /** Pass 3 leaves text without wildcard tokens unchanged, so it is idempotent. */
  lemma {:induction false} StripSplatIdentity(s: string)
    requires NoSplat(s)
    ensures StripSplat(s) == s
    decreases |s|
  {
    if |s| > 0 {
      assert TokenAt(s, '*') == 0;
      assert forall q :: 0 <= q < |s[1..]| - 1 && s[1..][q] == '*' ==> s[q + 1] == '*' && s[1..][q + 1] == s[q + 2];
      StripSplatIdentity(s[1..]);
      assert s == [s[0]] + s[1..];
    }
  }

  lemma StripSplatIdempotent(s: string)
    ensures StripSplat(StripSplat(s)) == StripSplat(s)
  {
    StripSplatClean(s);
    StripSplatIdentity(StripSplat(s));
  }

  // ---------------------------------------------------------------------
  // Passes 2 and 3 work segment by segment
  // ---------------------------------------------------------------------

  /** A word run stops at a non-word character, wherever the text goes on after it. */
  lemma {:induction false} WordRunStops(x: string, y: string)
    requires |y| > 0 && !IsWord(y[0])
    ensures WordRun(x + y) == WordRun(x)
    decreases |x|
  {
    if |x| > 0 {
      assert (x + y)[0] == x[0];
      assert (x + y)[1..] == x[1..] + y;
      WordRunStops(x[1..], y);
    } else {
      assert x + y == y;
    }
  }

  /** A token found at the start of a segment is the one found there in the whole text. */
  lemma TokenAtSegmentStart(a: string, r: string)
    requires |a| > 0 && '/' !in a
    requires |r| > 0 && r[0] == '/'
    ensures TokenAt(a + r, '*') == TokenAt(a, '*')
    ensures KeptNamedAt(a + r) == KeptNamedAt(a)
    ensures TokenAt(a + r, ':') == TokenAt(a, ':')
  {
    var t := a + r;
    assert forall i :: 0 <= i < |a| ==> t[i] == a[i] && a[i] in a;
    assert t[|a|] == '/';
    if |a| >= 2 && a[0] == '*' && IsWord(a[1]) {
      assert t[1..] == a[1..] + r;
      WordRunStops(a[1..], r);
    }
    if |a| >= 2 && a[0] == ':' && IsWord(a[1]) {
      assert t[1..] == a[1..] + r;
      WordRunStops(a[1..], r);
    }
    if |a| >= 4 && a[0] == '(' && a[1] == '?' && a[2] == ':' && IsWord(a[3]) {
      assert t[3..] == a[3..] + r;
      WordRunStops(a[3..], r);
    }
  }

  lemma DropConcat(a: string, r: string, m: nat)
    requires m <= |a|
    ensures (a + r)[m..] == a[m..] + r
  {
  }

  lemma TakeConcat(a: string, r: string, m: nat)
    requires m <= |a|
    ensures (a + r)[..m] == a[..m]
  {
  }

  lemma ConcatAssoc(k: string, x: string, y: string)
    ensures k + (x + y) == (k + x) + y
  {
  }

  /** Pass 3 never matches across a `/`: it strips a segment and what follows it separately. */
  lemma {:induction false} SplatLocal(a: string, r: string)
    requires '/' !in a
    requires |r| > 0 && r[0] == '/'
    ensures StripSplat(a + r) == StripSplat(a) + StripSplat(r)
    decreases |a|
  {
    if |a| == 0 {
      assert a + r == r;
    } else {
      var m := SplatSkip(a);
      assert '/' !in a[m..] by { assert forall c :: c in a[m..] ==> c in a; }
      SplatLocal(a[m..], r);
      SplatLocalStep(a, r);
    }
  }

  /** The inductive step of SplatLocal: text and segment take the same first step. */
  lemma SplatLocalStep(a: string, r: string)
    requires |a| > 0 && '/' !in a
    requires |r| > 0 && r[0] == '/'
    requires StripSplat(a[SplatSkip(a)..] + r) == StripSplat(a[SplatSkip(a)..]) + StripSplat(r)
    ensures StripSplat(a + r) == StripSplat(a) + StripSplat(r)
  {
    var t := a + r;
    var m := SplatSkip(a);
    assert SplatSkip(t) == m && SplatKeep(t) == SplatKeep(a) by {
      TokenAtSegmentStart(a, r);
      assert t[0] == a[0];
    }
    DropConcat(a, r, m);
    var k, x, y := SplatKeep(a), StripSplat(a[m..]), StripSplat(r);
    assert StripSplat(t) == k + (x + y);
    assert StripSplat(a) == k + x;
    ConcatAssoc(k, x, y);
  }

  /** Pass 2 never matches across a `/`. */
  lemma {:induction false} NamedLocal(a: string, r: string)
    requires '/' !in a
    requires |r| > 0 && r[0] == '/'
    ensures StripNamed(a + r) == StripNamed(a) + StripNamed(r)
    decreases |a|
  {
    if |a| == 0 {
      assert a + r == r;
    } else {
      var m := NamedSkip(a);
      assert '/' !in a[m..] by { assert forall c :: c in a[m..] ==> c in a; }
      NamedLocal(a[m..], r);
      NamedLocalStep(a, r);
    }
  }

  /** The inductive step of NamedLocal. */
  lemma NamedLocalStep(a: string, r: string)
    requires |a| > 0 && '/' !in a
    requires |r| > 0 && r[0] == '/'
    requires StripNamed(a[NamedSkip(a)..] + r) == StripNamed(a[NamedSkip(a)..]) + StripNamed(r)
    ensures StripNamed(a + r) == StripNamed(a) + StripNamed(r)
  {
    var t := a + r;
    var m := NamedSkip(a);
    assert NamedSkip(t) == m && NamedKeep(t) == NamedKeep(a) by {
      TokenAtSegmentStart(a, r);
      assert t[0] == a[0];
      TakeConcat(a, r, m);
    }
    DropConcat(a, r, m);
    var k, x, y := NamedKeep(a), StripNamed(a[m..]), StripNamed(r);
    assert StripNamed(t) == k + (x + y);
    assert StripNamed(a) == k + x;
    ConcatAssoc(k, x, y);
  }

  /** Pass 2 removes no `/` and adds none: a piece without `/` stays without one. */
  lemma {:induction false} NamedNoSlash(s: string)
    requires '/' !in s
    ensures '/' !in StripNamed(s)
    decreases |s|
  {
    if |s| > 0 {
      var m := if KeptNamedAt(s) > 0 then KeptNamedAt(s) else if TokenAt(s, ':') > 0 then TokenAt(s, ':') else 1;
      assert forall c :: c in s[m..] ==> c in s;
      assert forall c :: c in s[..m] ==> c in s;
      NamedNoSlash(s[m..]);
    }
  }

  /** Pass 3 removes no `/` and adds none. */
  lemma {:induction false} SplatNoSlash(s: string)
    requires '/' !in s
    ensures '/' !in StripSplat(s)
    decreases |s|
  {
    if |s| > 0 {
      var m := if TokenAt(s, '*') > 0 then TokenAt(s, '*') else 1;
      assert forall c :: c in s[m..] ==> c in s;
      SplatNoSlash(s[m..]);
    }
  }

  lemma ParamsKeepNoSlash(seg: string)
    requires '/' !in seg
    ensures '/' !in StripParams(seg)
  {
    NamedNoSlash(seg);
    SplatNoSlash(StripNamed(seg));
  }

  /** Neither pass 2 nor pass 3 matches at a `/`. */
  lemma SlashHead(b: string)
    ensures StripNamed("/" + b) == "/" + StripNamed(b)
    ensures StripSplat("/" + b) == "/" + StripSplat(b)
  {
    DropConcat("/", b, 1);
  }

  /** A text is its first segment, the separator and the rest. */
  lemma CutAtSlash(s: string, i: nat)
    requires i < |s| && s[i] == '/'
    ensures s == s[..i] + "/" + s[i + 1..]
  {
  }

  /** Passes 2 and 3 treat the segment before the first `/` and the rest separately. */
  lemma ParamsAtSlash(a: string, b: string)
    requires '/' !in a
    ensures StripParams(a + "/" + b) == StripParams(a) + "/" + StripParams(b)
  {
    ConcatAssoc(a, "/", b);
    NamedLocal(a, "/" + b);
    SlashHead(b);
    var na, nb := StripNamed(a), StripNamed(b);
    assert StripNamed(a + "/" + b) == na + ("/" + nb);
    NamedNoSlash(a);
    SplatLocal(na, "/" + nb);
    SlashHead(nb);
    ConcatAssoc(StripSplat(na), "/", StripSplat(nb));
  }

  /** Stripping the whole text and then splitting it strips each segment of its split. */
  lemma {:induction false} SplitStripParams(s: string)
    ensures Split(StripParams(s)) == StripEach(Split(s))
    decreases |s|
  {
    if '/' !in s {
      SplitNoSlash(s);
      ParamsKeepNoSlash(s);
      SplitNoSlash(StripParams(s));
    } else {
      var i := FirstSlash(s);
      var a, b := s[..i], s[i + 1..];
      CutAtSlash(s, i);
      SplitCons(a, b);
      ParamsAtSlash(a, b);
      ParamsKeepNoSlash(a);
      SplitCons(StripParams(a), StripParams(b));
      SplitStripParams(b);
      assert ([a] + Split(b))[1..] == Split(b);
    }
  }

  /** Index of the first `/` of a text that has one. */
  function FirstSlash(s: string): (i: nat)
    requires '/' in s
    ensures i < |s| && s[i] == '/' && '/' !in s[..i]
  {
    if s[0] == '/' then 0
    else
      assert '/' in s[1..] by { var j :| 0 <= j < |s| && s[j] == '/'; assert s[1..][j - 1] == '/'; }
      var j := FirstSlash(s[1..]);
      assert s[..j + 1] == [s[0]] + s[1..][..j];
      j + 1
  }

  /** The derivation of router.js:141-149 as "drop the groups, split, strip each segment, drop the empty ones". */
  lemma DerivePartsBySegment(route: string)
    ensures DeriveParts(route) == DropEmpty(StripEach(Split(StripOptional(route))))
  {
    SplitStripParams(StripOptional(route));
  }

  // ---------------------------------------------------------------------
  // What the derived and the supplied parts are
  // ---------------------------------------------------------------------

  lemma StripEachAt(xs: seq<string>, k: nat)
    requires k < |xs|
    ensures StripEach(xs)[k] == StripParams(xs[k])
  {
    if k > 0 {
      StripEachAt(xs[1..], k - 1);
    }
  }

  /** Derived parts are non-empty, hold no `/` and no wildcard token. */
  lemma DerivedPartsShape(route: string)
    ensures forall k :: 0 <= k < |DeriveParts(route)| ==>
      DeriveParts(route)[k] != "" && '/' !in DeriveParts(route)[k] && NoSplat(DeriveParts(route)[k])
  {
    var stripped := StripSplat(StripNamed(StripOptional(route)));
    var pieces := StripEach(Split(StripOptional(route)));
    DerivePartsBySegment(route);
    forall k | 0 <= k < |DeriveParts(route)|
      ensures '/' !in DeriveParts(route)[k] && NoSplat(DeriveParts(route)[k])
    {
      var j :| 0 <= j < |Split(stripped)| && Split(stripped)[j] == DeriveParts(route)[k];
      SplitStripParams(StripOptional(route));
      StripEachAt(Split(StripOptional(route)), j);
      StripSplatClean(StripNamed(Split(StripOptional(route))[j]));
    }
  }

  /** `DropEmpty` keeps exactly the non-empty pieces: nothing else and none of them lost. */
  lemma {:induction false} DropEmptyExact(xs: seq<string>, x: string)
    ensures x in DropEmpty(xs) <==> x in xs && x != ""
  {
    if |xs| > 0 {
      DropEmptyExact(xs[1..], x);
      assert xs == [xs[0]] + xs[1..];
    }
  }

  /** `DropEmpty` changes nothing when no piece is empty. */
  lemma {:induction false} DropEmptyAllFull(xs: seq<string>)
    requires forall k :: 0 <= k < |xs| ==> xs[k] != ""
    ensures DropEmpty(xs) == xs
  {
    if |xs| > 0 {
      DropEmptyAllFull(xs[1..]);
      assert xs == [xs[0]] + xs[1..];
    }
  }

  /** Pass 1 changes nothing in text without `(`. */
  lemma NoGroupUnchanged(s: string)
    requires '(' !in s
    ensures StripOptional(s) == s
  {
    StripOptionalIdentity(s);
  }

  /** Pass 2 changes nothing in text without `:`. */
  lemma {:induction false} NoNamedUnchanged(s: string)
    requires ':' !in s
    ensures StripNamed(s) == s
    decreases |s|
  {
    if |s| > 0 {
      assert KeptNamedAt(s) == 0 by {
        if |s| >= 4 {
          assert s[2] in s;
        }
      }
      assert TokenAt(s, ':') == 0 by {
        assert s[0] in s;
      }
      assert ':' !in s[1..] by { assert forall c :: c in s[1..] ==> c in s; }
      NoNamedUnchanged(s[1..]);
      assert s == [s[0]] + s[1..];
    }
  }

  /** Pass 3 changes nothing in text without `*`. */
  lemma NoSplatUnchanged(s: string)
    requires '*' !in s
    ensures StripSplat(s) == s
  {
    StripSplatIdentity(s);
  }

  /** A pattern without parameter tokens yields its own non-empty segments. */
  lemma PlainRouteParts(route: string)
    requires '(' !in route && ':' !in route && '*' !in route
    ensures DeriveParts(route) == DropEmpty(Split(route))
  {
    NoGroupUnchanged(route);
    NoNamedUnchanged(route);
    NoSplatUnchanged(route);
  }

  /** Supplied parts are split verbatim: joining them gives the string back. */
  lemma SuppliedPartsRoundTrip(parts: string)
    ensures Join(SplitParts(parts)) == parts
  {
    JoinSplit(parts);
  }

  // ---------------------------------------------------------------------
  // The documented examples
  // ---------------------------------------------------------------------

  /** Splitting at any separator: the pieces before it, then the pieces after it. */
  lemma {:induction false} SplitAppend(a: string, b: string)
    ensures Split(a + "/" + b) == Split(a) + Split(b)
    decreases |a|
  {
    if |a| == 0 {
      assert a + "/" + b == "/" + b;
      DropConcat("/", b, 1);
    } else {
      DropConcat(a, "/" + b, 1);
      ConcatAssoc(a, "/", b);
      SplitAppend(a[1..], b);
      ConcatAssoc(a[1..], "/", b);
    }
  }

  lemma {:induction false} StripEachAppend(xs: seq<string>, ys: seq<string>)
    ensures StripEach(xs + ys) == StripEach(xs) + StripEach(ys)
    decreases |xs|
  {
    if |xs| == 0 {
      assert xs + ys == ys;
    } else {
      assert (xs + ys)[1..] == xs[1..] + ys;
      StripEachAppend(xs[1..], ys);
    }
  }

  lemma {:induction false} DropEmptyAppend(xs: seq<string>, ys: seq<string>)
    ensures DropEmpty(xs + ys) == DropEmpty(xs) + DropEmpty(ys)
    decreases |xs|
  {
    if |xs| == 0 {
      assert xs + ys == ys;
    } else {
      assert (xs + ys)[1..] == xs[1..] + ys;
      DropEmptyAppend(xs[1..], ys);
    }
  }

  /** A text all of word characters is one whole word run. */
  lemma WordRunAll(w: string)
    requires forall i :: 0 <= i < |w| ==> IsWord(w[i])
    ensures WordRun(w) == |w|
  {
  }

  /** Pass 2 removes a whole `:word` token. */
  lemma NamedTokenVanishes(w: string)
    requires |w| > 0 && forall i :: 0 <= i < |w| ==> IsWord(w[i])
    ensures StripNamed(":" + w) == ""
  {
    var t := ":" + w;
    WordRunAll(w);
    DropConcat(":", w, 1);
    assert t[1..] == w;
    assert KeptNamedAt(t) == 0;
    assert TokenAt(t, ':') == |t|;
    assert NamedKeep(t) == "" && t[NamedSkip(t)..] == "";
  }

  /**
   * Pass 2 keeps a whole `(?:word` token, the case the replacer's `optional ? match : ''`
   * exists for, and goes on scanning after it.
   */
  lemma KeptGroupToken(w: string, r: string)
    requires |w| > 0 && forall i :: 0 <= i < |w| ==> IsWord(w[i])
    requires |r| == 0 || !IsWord(r[0])
    ensures StripNamed("(?:" + w + r) == "(?:" + w + StripNamed(r)
  {
    var t := "(?:" + w + r;
    assert t[3..] == w + r;
    if |r| > 0 {
      WordRunStops(w, r);
    } else {
      assert w + r == w;
    }
    WordRunAll(w);
    assert KeptNamedAt(t) == 3 + |w|;
    assert t[..3 + |w|] == "(?:" + w;
    assert t[3 + |w|..] == r;
  }

  /** Pass 3 removes a whole `*word` token. */
  lemma SplatTokenVanishes(w: string)
    requires |w| > 0 && forall i :: 0 <= i < |w| ==> IsWord(w[i])
    ensures StripSplat("*" + w) == ""
  {
    var t := "*" + w;
    WordRunAll(w);
    DropConcat("*", w, 1);
    assert t[1..] == w;
    assert TokenAt(t, '*') == |t|;
    assert SplatKeep(t) == "" && t[SplatSkip(t)..] == "";
  }

  /** A segment that is a single `:word` or `*word` token is stripped to nothing. */
  lemma TokenSegmentVanishes(w: string)
    requires |w| > 0 && forall i :: 0 <= i < |w| ==> IsWord(w[i])
    ensures StripParams(":" + w) == ""
    ensures StripParams("*" + w) == ""
  {
    NamedTokenVanishes(w);
    SplatTokenVanishes(w);
    assert forall c :: c in "*" + w ==> c == '*' || IsWord(c);
    NoNamedUnchanged("*" + w);
  }

  /** Appending a segment that strips to nothing adds no part. */
  lemma VanishingSegment(p: string, tok: string)
    requires '(' !in p + "/" + tok && '/' !in tok && StripParams(tok) == ""
    ensures DeriveParts(p + "/" + tok) == DeriveParts(p)
  {
    assert '(' !in p by { assert forall c :: c in p ==> c in p + "/" + tok; }
    NoGroupUnchanged(p);
    DerivePartsBySegment(p);
    NoGroupUnchanged(p + "/" + tok);
    DerivePartsBySegment(p + "/" + tok);
    SplitAppend(p, tok);
    SplitNoSlash(tok);
    StripEachAppend(Split(p), [tok]);
    assert StripEach([tok]) == [""];
    DropEmptyAppend(StripEach(Split(p)), [""]);
  }

  /** A trailing parameter segment (a `:id` or `*rest` token) adds no part, as at router.js:56. */
  lemma TrailingParameterAddsNoPart(p: string, w: string)
    requires '(' !in p
    requires |w| > 0 && forall i :: 0 <= i < |w| ==> IsWord(w[i])
    ensures DeriveParts(p + "/" + ":" + w) == DeriveParts(p)
    ensures DeriveParts(p + "/" + "*" + w) == DeriveParts(p)
  {
    TokenSegmentVanishes(w);
    assert forall c :: c in ":" + w ==> c == ':' || IsWord(c);
    assert forall c :: c in "*" + w ==> c == '*' || IsWord(c);
    assert forall c :: c in p + "/" + (":" + w) ==> c in p || c == '/' || c in ":" + w;
    assert forall c :: c in p + "/" + ("*" + w) ==> c in p || c == '/' || c in "*" + w;
    VanishingSegment(p, ":" + w);
    VanishingSegment(p, "*" + w);
    ConcatAssoc(p + "/", ":", w);
    ConcatAssoc(p + "/", "*", w);
  }

  /** The lazy group ends at the first `)` when nothing before it ends a line. */
  lemma {:induction false} GroupCloses(g: string, q: string)
    requires ')' !in g && forall i :: 0 <= i < |g| ==> !IsLineTerminator(g[i])
    ensures CloseAt(g + ")" + q) == Some(|g|)
    decreases |g|
  {
    if |g| > 0 {
      assert g[0] in g;
      assert ')' !in g[1..] by { assert forall c :: c in g[1..] ==> c in g; }
      DropConcat(g, ")" + q, 1);
      ConcatAssoc(g, ")", q);
      ConcatAssoc(g[1..], ")", q);
      GroupCloses(g[1..], q);
    }
  }

  /** Pass 1 cuts an optional group out of text that has no other group. */
  lemma {:induction false} GroupCutOut(p: string, g: string, q: string)
    requires '(' !in p && '(' !in q
    requires ')' !in g && forall i :: 0 <= i < |g| ==> !IsLineTerminator(g[i])
    ensures StripOptional(p + "(" + g + ")" + q) == p + q
    decreases |p|
  {
    var t := p + "(" + g + ")" + q;
    if |p| == 0 {
      assert t == "(" + (g + ")" + q);
      DropConcat("(", g + ")" + q, 1);
      GroupCloses(g, q);
      assert OptionalAt(t) == |g| + 2;
      assert t[|g| + 2..] == q;
      NoGroupUnchanged(q);
    } else {
      assert p[0] in p;
      assert '(' !in p[1..] by { assert forall c :: c in p[1..] ==> c in p; }
      assert t == p + ("(" + g + ")" + q);
      DropConcat(p, "(" + g + ")" + q, 1);
      assert t[1..] == p[1..] + "(" + g + ")" + q;
      GroupCutOut(p[1..], g, q);
      assert p + q == [p[0]] + (p[1..] + q);
    }
  }

  /** An optional group adds no part: the parts are those of the pattern without it. */
  lemma OptionalGroupAddsNoPart(p: string, g: string, q: string)
    requires '(' !in p && '(' !in q
    requires ')' !in g && forall i :: 0 <= i < |g| ==> !IsLineTerminator(g[i])
    ensures DeriveParts(p + "(" + g + ")" + q) == DeriveParts(p + q)
  {
    GroupCutOut(p, g, q);
    assert '(' !in p + q;
    NoGroupUnchanged(p + q);
  }

  /** Supplied string parts are split exactly, empty segments included. */
  lemma ExampleSuppliedParts()
    ensures SplitParts("x/y/z") == ["x", "y", "z"]
    ensures SplitParts("x//:id") == ["x", "", ":id"]
  {
    assert "x/y/z" == "x" + "/" + "y/z";
    SplitCons("x", "y/z");
    assert "y/z" == "y" + "/" + "z";
    SplitCons("y", "z");
    SplitNoSlash("z");
    assert "x//:id" == "x" + "/" + "/:id";
    SplitCons("x", "/:id");
    assert "/:id" == "" + "/" + ":id";
    SplitCons("", ":id");
    SplitNoSlash(":id");
  }
}
