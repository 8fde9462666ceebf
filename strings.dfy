/**
 * The string operations of ECMAScript that the extension relies on:
 * `trim`, the `\s` character class, `includes`, `endsWith`, `split` on one
 * character, `join`, and number-to-decimal conversion.
 */
module Strings {

  /** ECMAScript WhiteSpace and LineTerminator code points: the set that both
      `String.prototype.trim` and the regular-expression class `\s` use. */
  predicate IsSpace(c: char) {
    || c == '\t' || c == '\n' || c == '\U{000B}' || c == '\U{000C}' || c == '\r'
    || c == ' ' || c == '\U{00A0}' || c == '\U{1680}' || ('\U{2000}' <= c <= '\U{200A}')
    || c == '\U{2028}' || c == '\U{2029}' || c == '\U{202F}' || c == '\U{205F}'
    || c == '\U{3000}' || c == '\U{FEFF}'
  }

  /** The characters a regular-expression `.` does not match (no `s` flag). */
  predicate IsLineTerminator(c: char) {
    c == '\n' || c == '\r' || c == '\U{2028}' || c == '\U{2029}'
  }

  /** The non-whitespace characters of `s`, in order. */
  function NonSpace(s: string): string {
    if s == [] then [] else (if IsSpace(s[0]) then [] else [s[0]]) + NonSpace(s[1..])
  }

  /** `s` has no character other than whitespace (it trims to the empty string). */
  predicate Blank(s: string) {
    NonSpace(s) == []
  }

  lemma {:induction false} NonSpaceAppend(a: string, b: string)
    ensures NonSpace(a + b) == NonSpace(a) + NonSpace(b)
  {
    if a == [] {
      assert a + b == b;
    } else {
      assert (a + b)[0] == a[0];
      assert (a + b)[1..] == a[1..] + b;
      NonSpaceAppend(a[1..], b);
    }
  }

  // ---------------------------------------------------------------- trim

  /** `trimStart`. */
  function TrimStart(s: string): (r: string)
    ensures |r| <= |s| && r == s[|s| - |r|..]
    ensures r == [] || !IsSpace(r[0])
    ensures NonSpace(r) == NonSpace(s)
  {
    if s != [] && IsSpace(s[0]) then
      var r := TrimStart(s[1..]);
      assert s[1..][|s| - 1 - |r|..] == s[|s| - |r|..];
      r
    else s
  }

  /** `trimEnd`. */
  function TrimEnd(s: string): (r: string)
    ensures |r| <= |s| && r == s[..|r|]
    ensures r == [] || !IsSpace(r[|r| - 1])
    ensures NonSpace(r) == NonSpace(s)
  {
    if s != [] && IsSpace(s[|s| - 1]) then
      var t := s[..|s| - 1];
      assert s == t + [s[|s| - 1]];
      NonSpaceAppend(t, [s[|s| - 1]]);
      TrimEnd(t)
    else s
  }

  /** `String.prototype.trim`: drops leading and trailing whitespace. */
  function Trim(s: string): (r: string)
    ensures exists i, j :: 0 <= i <= j <= |s| && r == s[i..j]
    ensures r == [] || (!IsSpace(r[0]) && !IsSpace(r[|r| - 1]))
    ensures NonSpace(r) == NonSpace(s)
  {
    var t := TrimStart(s);
    var r := TrimEnd(t);
    assert r == s[|s| - |t|..|s| - |t| + |r|];
    r
  }

  /** Trimming gives the empty string exactly on blank input. */
  lemma TrimEmpty(s: string)
    ensures Trim(s) == [] <==> Blank(s)
  {
    var r := Trim(s);
    if r != [] {
      assert r == [r[0]] + r[1..];
      NonSpaceAppend([r[0]], r[1..]);
    }
  }

  /** A string with a non-whitespace character is not blank at its end. */
  lemma NotBlankLast(s: string)
    requires s != [] && !IsSpace(s[|s| - 1])
    ensures !Blank(s)
  {
    assert s == s[..|s| - 1] + [s[|s| - 1]];
    NonSpaceAppend(s[..|s| - 1], [s[|s| - 1]]);
  }

  /** A string starting with a non-whitespace character is not blank. */
  lemma NotBlankFirst(s: string)
    requires s != [] && !IsSpace(s[0])
    ensures !Blank(s)
  {
  }

  /** `trimStart` of a non-blank string followed by anything stops inside it. */
  lemma {:induction false} TrimStartAppend(x: string, t: string)
    requires !Blank(x)
    ensures TrimStart(x + t) == TrimStart(x) + t
  {
    assert (x + t)[0] == x[0];
    if IsSpace(x[0]) {
      assert (x + t)[1..] == x[1..] + t;
      TrimStartAppend(x[1..], t);
    }
  }

  /** `trimEnd` of anything followed by a non-blank string stops inside it. */
  lemma {:induction false} TrimEndAppend(x: string, t: string)
    requires !Blank(t)
    ensures TrimEnd(x + t) == x + TrimEnd(t)
    decreases |t|
  {
    var s := x + t;
    assert s[|s| - 1] == t[|t| - 1];
    if IsSpace(t[|t| - 1]) {
      var t' := t[..|t| - 1];
      assert t == t' + [t[|t| - 1]];
      NonSpaceAppend(t', [t[|t| - 1]]);
      assert s[..|s| - 1] == x + t';
      TrimEndAppend(x, t');
    }
  }

  /** `trimStart` removes a blank prefix up to a non-whitespace character. */
  lemma {:induction false} TrimStartBlankPrefix(x: string, t: string)
    requires Blank(x) && (t == [] || !IsSpace(t[0]))
    ensures TrimStart(x + t) == t
  {
    if x == [] {
      assert x + t == t;
    } else {
      assert IsSpace(x[0]) && Blank(x[1..]);
      assert (x + t)[0] == x[0];
      assert (x + t)[1..] == x[1..] + t;
      TrimStartBlankPrefix(x[1..], t);
    }
  }

  /** A string with no whitespace at either end is its own trim. */
  lemma TrimOfTrimmed(t: string)
    requires t == [] || (!IsSpace(t[0]) && !IsSpace(t[|t| - 1]))
    ensures Trim(t) == t
  {
  }

  lemma TrimIdempotent(s: string)
    ensures Trim(Trim(s)) == Trim(s)
  {
    TrimOfTrimmed(Trim(s));
  }

  // ------------------------------------------------- collapsing \s+ to ' '

  /** No two adjacent characters are both whitespace. */
  predicate NoAdjacentSpaces(t: string) {
    forall i :: 0 <= i < |t| - 1 ==> !(IsSpace(t[i]) && IsSpace(t[i + 1]))
  }

  /** Every whitespace character is a plain space. */
  predicate SpacesAreBlanks(t: string) {
    forall i :: 0 <= i < |t| && IsSpace(t[i]) ==> t[i] == ' '
  }

  /** `s.replace(/\s+/g, ' ')`: each maximal whitespace run becomes one space. */
  function Collapse(s: string): (r: string)
    ensures r == [] <==> s == []
    decreases |s|
  {
    if s == [] then []
    else if IsSpace(s[0]) then [' '] + Collapse(TrimStart(s[1..]))
    else [s[0]] + Collapse(s[1..])
  }

  /** Collapsing keeps whether the string starts and ends with whitespace. */
  lemma {:induction false} CollapseEnds(s: string)
    ensures Collapse(s) != [] ==> (IsSpace(Collapse(s)[0]) <==> IsSpace(s[0]))
    ensures Collapse(s) != [] ==> (IsSpace(Collapse(s)[|Collapse(s)| - 1]) <==> IsSpace(s[|s| - 1]))
    decreases |s|
  {
    if s != [] {
      var tail := if IsSpace(s[0]) then TrimStart(s[1..]) else s[1..];
      CollapseEnds(tail);
      if tail != [] {
        assert tail[|tail| - 1] == s[|s| - 1];
      } else if IsSpace(s[0]) && |s| > 1 {
        TrimStartBlankTail(s[1..]);
      }
    }
  }

  /** When trimming the start consumes everything, the last character was whitespace. */
  lemma TrimStartBlankTail(s: string)
    requires s != [] && TrimStart(s) == []
    ensures IsSpace(s[|s| - 1])
  {
    assert NonSpace(s) == NonSpace(TrimStart(s)) == [];
    if !IsSpace(s[|s| - 1]) {
      NotBlankLast(s);
    }
  }

  /** Collapsing a string that ends in a non-whitespace character never merges
      it with what follows. */
  lemma {:induction false} CollapseAppend(a: string, t: string)
    requires a == [] || !IsSpace(a[|a| - 1])
    ensures Collapse(a + t) == Collapse(a) + Collapse(t)
    decreases |a|
  {
    if a == [] {
      assert a + t == t;
    } else if IsSpace(a[0]) {
      NotBlankLast(a[1..]);
      var u := TrimStart(a[1..]);
      assert u != [] && u[|u| - 1] == a[|a| - 1];
      CollapseAppend(u, t);
      CollapseAppendRun(a, t);
    } else {
      assert a[1..] == [] || a[1..][|a[1..]| - 1] == a[|a| - 1];
      CollapseAppend(a[1..], t);
      CollapseAppendWord(a, t);
    }
  }

  /** The step of `CollapseAppend` at a leading whitespace character. */
  lemma CollapseAppendRun(a: string, t: string)
    requires a != [] && IsSpace(a[0]) && !Blank(a[1..])
    requires Collapse(TrimStart(a[1..]) + t) == Collapse(TrimStart(a[1..])) + Collapse(t)
    ensures Collapse(a + t) == Collapse(a) + Collapse(t)
  {
    var rest, u := a[1..], TrimStart(a[1..]);
    calc {
      Collapse(a + t);
      { HeadSplit(a, t); CollapseCons(a[0], rest + t); }
      [' '] + Collapse(TrimStart(rest + t));
      { TrimStartAppend(rest, t); }
      [' '] + Collapse(u + t);
      [' '] + Collapse(u) + Collapse(t);
      { HeadSplit(a, t); CollapseCons(a[0], rest); }
      Collapse(a) + Collapse(t);
    }
  }

  /** The step of `CollapseAppend` at a leading non-whitespace character. */
  lemma CollapseAppendWord(a: string, t: string)
    requires a != [] && !IsSpace(a[0])
    requires Collapse(a[1..] + t) == Collapse(a[1..]) + Collapse(t)
    ensures Collapse(a + t) == Collapse(a) + Collapse(t)
  {
    var rest := a[1..];
    calc {
      Collapse(a + t);
      { HeadSplit(a, t); CollapseCons(a[0], rest + t); }
      [a[0]] + Collapse(rest + t);
      [a[0]] + Collapse(rest) + Collapse(t);
      { HeadSplit(a, t); CollapseCons(a[0], rest); }
      Collapse(a) + Collapse(t);
    }
  }

  /** A non-empty string is its first character followed by the rest. */
  lemma HeadSplit(a: string, t: string)
    requires a != []
    ensures a == [a[0]] + a[1..] && a + t == [a[0]] + (a[1..] + t)
  {
    assert a == [a[0]] + a[1..];
  }

  lemma AppendAssoc(a: string, b: string, c: string)
    ensures a + b + c == a + (b + c)
  {
  }

  /** One step of collapsing, at the first character. */
  lemma CollapseCons(c: char, s: string)
    ensures Collapse([c] + s) == if IsSpace(c) then [' '] + Collapse(TrimStart(s)) else [c] + Collapse(s)
  {
    assert ([c] + s)[0] == c && ([c] + s)[1..] == s;
  }

  /** A whitespace run between two words becomes exactly one space. */
  lemma CollapseSeparates(a: string, w: string, b: string)
    requires a == [] || !IsSpace(a[|a| - 1])
    requires w != [] && Blank(w)
    requires b == [] || !IsSpace(b[0])
    ensures Collapse(a + w + b) == Collapse(a) + " " + Collapse(b)
  {
    calc {
      Collapse(a + w + b);
      { AppendAssoc(a, w, b); }
      Collapse(a + (w + b));
      { CollapseAppend(a, w + b); }
      Collapse(a) + Collapse(w + b);
      { CollapseRun(w, b); }
      Collapse(a) + ([' '] + Collapse(b));
      { AppendAssoc(Collapse(a), " ", Collapse(b)); }
      Collapse(a) + " " + Collapse(b);
    }
  }

  /** A leading whitespace run collapses to one space before the next word. */
  lemma CollapseRun(w: string, b: string)
    requires w != [] && Blank(w)
    requires b == [] || !IsSpace(b[0])
    ensures Collapse(w + b) == [' '] + Collapse(b)
  {
    assert IsSpace(w[0]) && Blank(w[1..]);
    assert (w + b)[0] == w[0];
    assert (w + b)[1..] == w[1..] + b;
    TrimStartBlankPrefix(w[1..], b);
  }

  /** The result of collapsing has only plain spaces, never two in a row. */
  lemma {:induction false} CollapseCanonical(s: string)
    ensures NoAdjacentSpaces(Collapse(s)) && SpacesAreBlanks(Collapse(s))
    decreases |s|
  {
    if s != [] {
      var tail := if IsSpace(s[0]) then TrimStart(s[1..]) else s[1..];
      var c := if IsSpace(s[0]) then ' ' else s[0];
      CollapseCanonical(tail);
      CollapseEnds(tail);
      assert Collapse(s) == [c] + Collapse(tail);
      ConsCanonical(c, Collapse(tail));
    }
  }

  /** Putting a character in front of a canonical text keeps it canonical unless it
      makes two whitespace characters adjacent. */
  lemma ConsCanonical(c: char, u: string)
    requires NoAdjacentSpaces(u) && SpacesAreBlanks(u)
    requires IsSpace(c) ==> c == ' ' && (u == [] || !IsSpace(u[0]))
    ensures NoAdjacentSpaces([c] + u) && SpacesAreBlanks([c] + u)
  {
    var r := [c] + u;
    forall i | 0 <= i < |r| - 1 ensures !(IsSpace(r[i]) && IsSpace(r[i + 1])) {
      if i > 0 {
        assert r[i] == u[i - 1] && r[i + 1] == u[i];
      }
    }
    forall i | 0 <= i < |r| && IsSpace(r[i]) ensures r[i] == ' ' {
      if i > 0 {
        assert r[i] == u[i - 1];
      }
    }
  }

  /** Collapsing keeps the non-whitespace characters and their order. */
  lemma {:induction false} CollapseNonSpace(s: string)
    ensures NonSpace(Collapse(s)) == NonSpace(s)
    decreases |s|
  {
    if s != [] {
      if IsSpace(s[0]) {
        var rest := TrimStart(s[1..]);
        CollapseNonSpace(rest);
        NonSpaceAppend([' '], Collapse(rest));
      } else {
        CollapseNonSpace(s[1..]);
        NonSpaceAppend([s[0]], Collapse(s[1..]));
      }
    }
  }

  /** A string already in collapsed form is left unchanged. */
  lemma {:induction false} CollapseOfCollapsed(t: string)
    requires NoAdjacentSpaces(t) && SpacesAreBlanks(t)
    ensures Collapse(t) == t
  {
    if t != [] {
      var c, u := t[0], t[1..];
      CanonicalTail(t);
      CollapseOfCollapsed(u);
      assert t == [c] + u;
      CollapseCons(c, u);
      if IsSpace(c) {
        assert TrimStart(u) == u;
      }
    }
  }

  /** The tail of a canonical text is canonical, and after a leading space it starts
      with a word. */
  lemma CanonicalTail(t: string)
    requires t != [] && NoAdjacentSpaces(t) && SpacesAreBlanks(t)
    ensures NoAdjacentSpaces(t[1..]) && SpacesAreBlanks(t[1..])
    ensures IsSpace(t[0]) ==> t[0] == ' ' && (t[1..] == [] || !IsSpace(t[1..][0]))
  {
    var u := t[1..];
    forall i | 0 <= i < |u| - 1 ensures !(IsSpace(u[i]) && IsSpace(u[i + 1])) {
      assert u[i] == t[i + 1] && u[i + 1] == t[i + 2];
    }
    forall i | 0 <= i < |u| && IsSpace(u[i]) ensures u[i] == ' ' {
      assert u[i] == t[i + 1];
    }
    if u != [] {
      assert u[0] == t[1];
    }
  }

  // ---------------------------------------------------------- substrings

  /** `sub` occurs in `s` starting at index `i`. */
  predicate OccursAt(s: string, sub: string, i: int) {
    0 <= i <= |s| - |sub| && s[i..i + |sub|] == sub
  }

  /** `s.includes(sub)`. */
  predicate Contains(s: string, sub: string)
    decreases |s|
  {
    sub <= s || (s != [] && Contains(s[1..], sub))
  }

  /** `Contains` holds exactly when `sub` occurs at some index of `s`. */
  lemma {:induction false} ContainsIff(s: string, sub: string)
    ensures Contains(s, sub) <==> exists i :: OccursAt(s, sub, i)
  {
    if sub <= s {
      assert OccursAt(s, sub, 0);
    }
    if s != [] {
      ContainsIff(s[1..], sub);
      forall i | OccursAt(s[1..], sub, i) ensures OccursAt(s, sub, i + 1) {
        assert s[1..][i..i + |sub|] == s[i + 1..i + 1 + |sub|];
      }
      forall i | 1 <= i && OccursAt(s, sub, i) ensures OccursAt(s[1..], sub, i - 1) {
        assert s[1..][i - 1..i - 1 + |sub|] == s[i..i + |sub|];
      }
    }
    if exists i :: OccursAt(s, sub, i) {
      var i :| OccursAt(s, sub, i);
      if i == 0 {
        assert sub <= s;
      } else {
        assert OccursAt(s[1..], sub, i - 1);
      }
    }
  }

  /** A text lacking one of the characters of `sub` does not contain `sub`. */
  lemma MissingChar(s: string, sub: string, j: nat)
    requires j < |sub| && sub[j] !in s
    ensures !Contains(s, sub)
  {
    ContainsIff(s, sub);
    assert forall i :: OccursAt(s, sub, i) ==> s[i..i + |sub|][j] == s[i + j];
  }

  /** `s.endsWith(suffix)`. */
  predicate EndsWith(s: string, suffix: string) {
    |suffix| <= |s| && s[|s| - |suffix|..] == suffix
  }

  // ------------------------------------------------------- case mapping

  function LowerChar(c: char): char {
    if 'A' <= c <= 'Z' then (c as int + 32) as char else c
  }

  function UpperChar(c: char): char {
    if 'a' <= c <= 'z' then (c as int - 32) as char else c
  }

  /** `toLowerCase`, on the ASCII letters. */
  function ToLower(s: string): (r: string)
    ensures |r| == |s| && forall i :: 0 <= i < |s| ==> r[i] == LowerChar(s[i])
  {
    seq(|s|, i requires 0 <= i < |s| => LowerChar(s[i]))
  }

  /** A letter that occurs in `s` in neither case does not occur in its lowercase form. */
  lemma LowerLacks(s: string, c: char)
    requires 'a' <= c <= 'z' && c !in s && UpperChar(c) !in s
    ensures c !in ToLower(s)
  {
    forall i | 0 <= i < |s| ensures ToLower(s)[i] != c {
      assert s[i] != c && s[i] != UpperChar(c);
    }
  }

  /** `a` is `b` with some elements removed and the rest kept in order. */
  predicate Subsequence<T(==)>(a: seq<T>, b: seq<T>)
    decreases |b|
  {
    a == [] || (b != [] && ((a[0] == b[0] && Subsequence(a[1..], b[1..])) || Subsequence(a, b[1..])))
  }

  // ------------------------------------------------------ split and join

  /** `s.split(c)` for a one-character separator. */
  function Split(s: string, c: char): (r: seq<string>)
    ensures |r| >= 1
  {
    if s == [] then [""]
    else
      var rest := Split(s[1..], c);
      if s[0] == c then [""] + rest else [[s[0]] + rest[0]] + rest[1..]
  }

  /** `ws.join(sep)`. */
  function Join(ws: seq<string>, sep: string): string {
    if |ws| == 0 then ""
    else if |ws| == 1 then ws[0]
    else ws[0] + sep + Join(ws[1..], sep)
  }

  /** Joining the pieces of a split with the separator gives back the string. */
  lemma {:induction false} JoinSplit(s: string, c: char)
    ensures Join(Split(s, c), [c]) == s
  {
    if s != [] {
      var rest := Split(s[1..], c);
      JoinSplit(s[1..], c);
      HeadSplit(s, []);
      if s[0] == c {
        JoinCons("", rest, [c]);
        assert [""] + rest == Split(s, c);
        assert "" + [c] + Join(rest, [c]) == [c] + s[1..];
      } else if |rest| == 1 {
        assert Split(s, c) == [[s[0]] + rest[0]];
      } else {
        var head, more := rest[0], rest[1..];
        assert rest == [head] + more;
        assert Split(s, c) == [[s[0]] + head] + more;
        JoinCons([s[0]] + head, more, [c]);
        JoinCons(head, more, [c]);
        AppendAssoc4([s[0]], head, [c], Join(more, [c]));
      }
    }
  }

  lemma JoinCons(w: string, ws: seq<string>, sep: string)
    requires ws != []
    ensures Join([w] + ws, sep) == w + sep + Join(ws, sep)
  {
    assert ([w] + ws)[0] == w && ([w] + ws)[1..] == ws;
  }

  lemma AppendAssoc4(a: string, b: string, c: string, d: string)
    ensures a + b + c + d == a + (b + c + d)
  {
  }

  /** No piece of a split contains the separator. */
  lemma {:induction false} SplitPiecesFree(s: string, c: char)
    ensures forall k :: 0 <= k < |Split(s, c)| ==> c !in Split(s, c)[k]
  {
    if s != [] {
      SplitPiecesFree(s[1..], c);
    }
  }

  lemma {:induction false} SplitPrefix(w: string, c: char, t: string)
    requires c !in w
    ensures Split(w + [c] + t, c) == [w] + Split(t, c)
  {
    if w == [] {
      assert ([c] + t)[1..] == t;
    } else {
      assert (w + [c] + t)[1..] == w[1..] + [c] + t;
      SplitPrefix(w[1..], c, t);
      assert [w[0]] + w[1..] == w;
    }
  }

  lemma {:induction false} SplitFree(w: string, c: char)
    requires c !in w
    ensures Split(w, c) == [w]
  {
    if w != [] {
      SplitFree(w[1..], c);
      assert [w[0]] + w[1..] == w;
    }
  }

  /** Splitting a join of separator-free pieces gives back the pieces. */
  lemma {:induction false} SplitJoin(ws: seq<string>, c: char)
    requires |ws| >= 1
    requires forall k :: 0 <= k < |ws| ==> c !in ws[k]
    ensures Split(Join(ws, [c]), c) == ws
  {
    if |ws| == 1 {
      SplitFree(ws[0], c);
    } else {
      SplitJoin(ws[1..], c);
      SplitPrefix(ws[0], c, Join(ws[1..], [c]));
      assert [ws[0]] + ws[1..] == ws;
    }
  }

  // --------------------------------------------------- decimal notation

  function DigitChar(d: nat): char
    requires d < 10
  {
    "0123456789"[d]
  }

  function DigitValue(c: char): nat {
    if '0' <= c <= '9' then c as int - '0' as int else 0
  }

  /** The decimal notation JavaScript prints for a non-negative integer. */
  function NatToString(n: nat): (r: string)
    ensures |r| >= 1
    decreases n
  {
    if n < 10 then [DigitChar(n)] else NatToString(n / 10) + [DigitChar(n % 10)]
  }

  /** `String(n)` for an integer-valued number. */
  function IntToString(n: int): string {
    if n < 0 then "-" + NatToString(-n) else NatToString(n)
  }

  /** Reads a string of decimal digits back. */
  function ParseDigits(s: string): nat {
    if s == [] then 0 else ParseDigits(s[..|s| - 1]) * 10 + DigitValue(s[|s| - 1])
  }

  lemma {:induction false} ParseNatToString(n: nat)
    ensures ParseDigits(NatToString(n)) == n
    decreases n
  {
    if n >= 10 {
      var s := NatToString(n / 10) + [DigitChar(n % 10)];
      assert s[..|s| - 1] == NatToString(n / 10);
      ParseNatToString(n / 10);
      assert DigitValue(DigitChar(n % 10)) == n % 10;
    } else {
      assert DigitValue(DigitChar(n)) == n;
    }
  }

  /** Distinct numbers print differently. */
  lemma NatToStringInjective(m: nat, n: nat)
    requires NatToString(m) == NatToString(n)
    ensures m == n
  {
    ParseNatToString(m);
    ParseNatToString(n);
  }
}
