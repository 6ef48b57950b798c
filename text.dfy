/** The string operations the scripts rely on, with Python's semantics:
    `str.lower`, `str.split(", ")`, `", ".join`, `str.strip`, comparison of
    strings, and the name clean-up `re.sub(r'\s*\(required\)', '', s)`. */
module Text {
  import opened Sorting

  /** Python's `str.isspace()`, which is also what `\s` matches and what
      `strip()` removes. */
  predicate IsSpace(c: char)
  {
    var k := c as int;
    (9 <= k <= 13) || (28 <= k <= 32) || k == 0x85 || k == 0xA0 || k == 0x1680 ||
    (0x2000 <= k <= 0x200A) || k == 0x2028 || k == 0x2029 || k == 0x202F ||
    k == 0x205F || k == 0x3000
  }

  /** `str.lower()` on one character, for the ASCII letters. */
  function LowerChar(c: char): (l: char)
    ensures 'A' <= c <= 'Z' ==> 'a' <= l <= 'z' && l as int == c as int + 32
    ensures !('A' <= c <= 'Z') ==> l == c
  {
    if 'A' <= c <= 'Z' then (c as int + 32) as char else c
  }

  function Lower(s: string): (r: string)
    ensures |r| == |s|
    ensures forall i :: 0 <= i < |s| ==> r[i] == LowerChar(s[i])
    decreases |s|
  {
    if s == [] then [] else [LowerChar(s[0])] + Lower(s[1..])
  }

  /** The separator the skills columns use between skills. */
  const SkillSeparator: string := ", "

  /** `s` contains no ", " anywhere. */
  predicate NoSeparator(s: string)
  {
    forall i :: 0 <= i < |s| - 1 ==> !(s[i] == ',' && s[i + 1] == ' ')
  }

  /** The total length of some strings. */
  function TotalLength(pieces: seq<string>): nat
    decreases |pieces|
  {
    if pieces == [] then 0 else |pieces[0]| + TotalLength(pieces[1..])
  }

  /** `sep.join(pieces)`: the pieces with one separator between each two,
      starting with the first piece; no pieces give the empty string. */
  function Join(pieces: seq<string>, sep: string): (r: string)
    ensures pieces == [] ==> r == ""
    ensures pieces != [] ==> pieces[0] <= r && |r| == TotalLength(pieces) + (|pieces| - 1) * |sep|
    decreases |pieces|
  {
    if pieces == [] then ""
    else if |pieces| == 1 then pieces[0]
    else pieces[0] + sep + Join(pieces[1..], sep)
  }

  /** Python's `s.split(", ")`: the pieces between successive non-overlapping
      occurrences of the separator, scanning from the left, with no trimming;
      an empty string gives one empty piece. */
  function Split(s: string): (pieces: seq<string>)
    ensures |pieces| >= 1
    ensures pieces[0] <= s
    ensures Join(pieces, SkillSeparator) == s
    ensures forall k :: 0 <= k < |pieces| ==> NoSeparator(pieces[k])
    decreases |s|
  {
    if |s| >= 2 && s[0] == ',' && s[1] == ' ' then
      var rest := Split(s[2..]);
      assert s == SkillSeparator + s[2..];
      [""] + rest
    else if s == [] then [""]
    else
      var rest := Split(s[1..]);
      assert s == [s[0]] + s[1..];
      ExtendFirstPiece(s[0], s[1..], rest);
      [[s[0]] + rest[0]] + rest[1..]
  }

  /** The split of `t` with `c` put ahead of its first piece is a split of
      `c` followed by `t`, when `c` does not start a separator. */
  lemma {:induction false} ExtendFirstPiece(c: char, t: string, rest: seq<string>)
    requires |rest| >= 1 && rest[0] <= t
    requires Join(rest, SkillSeparator) == t
    requires forall k :: 0 <= k < |rest| ==> NoSeparator(rest[k])
    requires !(c == ',' && t != [] && t[0] == ' ')
    ensures var pieces := [[c] + rest[0]] + rest[1..];
            && pieces[0] <= [c] + t
            && Join(pieces, SkillSeparator) == [c] + t
            && forall k :: 0 <= k < |pieces| ==> NoSeparator(pieces[k])
  {
    var pieces := [[c] + rest[0]] + rest[1..];
    JoinExtendFirst(c, rest);
    assert rest[0] != [] ==> rest[0][0] == t[0];
    NoSeparatorCons(c, rest[0]);
    forall k | 1 <= k < |pieces| ensures NoSeparator(pieces[k]) {
      assert pieces[k] == rest[k];
    }
  }

  /** Putting `c` ahead of the first piece puts it ahead of the joined text. */
  lemma {:induction false} JoinExtendFirst(c: char, pieces: seq<string>)
    requires |pieces| >= 1
    ensures Join([[c] + pieces[0]] + pieces[1..], SkillSeparator) == [c] + Join(pieces, SkillSeparator)
  {
    var extended := [[c] + pieces[0]] + pieces[1..];
    if |pieces| > 1 {
      var tail := Join(pieces[1..], SkillSeparator);
      assert extended[1..] == pieces[1..];
      assert ([c] + pieces[0]) + SkillSeparator + tail == [c] + (pieces[0] + SkillSeparator + tail);
    }
  }

  /** A character that does not start a separator keeps a piece free of it. */
  lemma {:induction false} NoSeparatorCons(c: char, p: string)
    requires NoSeparator(p)
    requires !(c == ',' && p != [] && p[0] == ' ')
    ensures NoSeparator([c] + p)
  {
    var q := [c] + p;
    forall i | 0 <= i < |q| - 1 ensures !(q[i] == ',' && q[i + 1] == ' ') {
      if i > 0 {
        assert q[i] == p[i - 1] && q[i + 1] == p[i];
      }
    }
  }

  /** Splitting a piece with no separator, followed by the separator, yields
      that piece first. */
  lemma {:induction false} SplitAfterPiece(p: string, rest: string)
    requires NoSeparator(p)
    ensures Split(p + SkillSeparator + rest) == [p] + Split(rest)
    decreases |p|
  {
    var s := p + SkillSeparator + rest;
    if p == [] {
      assert s == SkillSeparator + rest;
      assert s[2..] == rest;
    } else {
      assert s[1..] == p[1..] + SkillSeparator + rest;
      assert NoSeparator(p[1..]);
      SplitAfterPiece(p[1..], rest);
      assert !(s[0] == ',' && s[1] == ' ') by {
        if |p| > 1 { assert s[1] == p[1]; } else { assert s[1] == ','; }
      }
      assert [s[0]] + p[1..] == p;
    }
  }

  lemma {:induction false} SplitOfPiece(p: string)
    requires NoSeparator(p)
    ensures Split(p) == [p]
    decreases |p|
  {
    if p != [] {
      assert NoSeparator(p[1..]);
      SplitOfPiece(p[1..]);
      assert !(|p| >= 2 && p[0] == ',' && p[1] == ' ');
      assert [p[0]] + p[1..] == p;
    }
  }

  /** Splitting undoes joining whenever no piece contains the separator; with
      `Join(Split(s)) == s` (the contract of Split) the two are inverses. */
  lemma {:induction false} SplitJoin(pieces: seq<string>)
    requires |pieces| >= 1
    requires forall k :: 0 <= k < |pieces| ==> NoSeparator(pieces[k])
    ensures Split(Join(pieces, SkillSeparator)) == pieces
    decreases |pieces|
  {
    if |pieces| == 1 {
      SplitOfPiece(pieces[0]);
    } else {
      SplitJoin(pieces[1..]);
      SplitAfterPiece(pieces[0], Join(pieces[1..], SkillSeparator));
      assert pieces == [pieces[0]] + pieces[1..];
    }
  }

  /** Length of the run of whitespace at the start of `s`. */
  function LeadingSpaces(s: string): (n: nat)
    ensures n <= |s|
    ensures forall i :: 0 <= i < n ==> IsSpace(s[i])
    ensures n == |s| || !IsSpace(s[n])
    decreases |s|
  {
    if s != [] && IsSpace(s[0]) then 1 + LeadingSpaces(s[1..]) else 0
  }

  /** Length of the run of whitespace at the end of `s`. */
  function TrailingSpaces(s: string): (n: nat)
    ensures n <= |s|
    ensures forall i :: |s| - n <= i < |s| ==> IsSpace(s[i])
    ensures n == |s| || !IsSpace(s[|s| - n - 1])
    decreases |s|
  {
    if s != [] && IsSpace(s[|s| - 1]) then 1 + TrailingSpaces(s[..|s| - 1]) else 0
  }

  /** `str.strip()`: the part of `s` between its leading and trailing
      whitespace. */
  function Strip(s: string): (r: string)
    ensures LeadingSpaces(s) + |r| <= |s|
    ensures r == s[LeadingSpaces(s)..LeadingSpaces(s) + |r|]
    ensures forall i :: 0 <= i < |s| && !(LeadingSpaces(s) <= i < LeadingSpaces(s) + |r|) ==> IsSpace(s[i])
    ensures r == [] || (!IsSpace(r[0]) && !IsSpace(r[|r| - 1]))
  {
    var a := LeadingSpaces(s);
    var t := s[a..];
    var b := TrailingSpaces(t);
    assert b < |t| ==> !IsSpace(t[0]);
    t[..|t| - b]
  }

  /** Stripping twice strips nothing more. */
  lemma {:induction false} StripIdempotent(s: string)
    ensures Strip(Strip(s)) == Strip(s)
  {
    var r := Strip(s);
    assert LeadingSpaces(r) == 0;
    assert TrailingSpaces(r) == 0;
  }

  /** The literal name suffix, matched case-sensitively. */
  const RequiredLabel: string := "(required)"

  predicate RequiredAt(s: string, i: nat)
  {
    i + |RequiredLabel| <= |s| && s[i..i + |RequiredLabel|] == RequiredLabel
  }

  /** `re.sub(r'\s*\(required\)', '', s)`: scanning from the left, every
      occurrence of "(required)" is removed together with the whitespace run
      just before it; scanning resumes after the removed text. */
  function RemoveRequired(s: string): (r: string)
    ensures |r| <= |s|
    decreases |s|
  {
    if s == [] then []
    else
      var w := LeadingSpaces(s);
      if RequiredAt(s, w) then RemoveRequired(s[w + |RequiredLabel|..])
      else [s[0]] + RemoveRequired(s[1..])
  }

  /** A name without "(required)" is left as it is. */
  lemma {:induction false} RemoveRequiredAbsent(s: string)
    requires forall i :: 0 <= i <= |s| ==> !RequiredAt(s, i)
    ensures RemoveRequired(s) == s
    decreases |s|
  {
    if s != [] {
      forall i | 0 <= i <= |s[1..]| ensures !RequiredAt(s[1..], i) {
        assert !RequiredAt(s, i + 1);
      }
      RemoveRequiredAbsent(s[1..]);
      assert !RequiredAt(s, LeadingSpaces(s));
      assert [s[0]] + s[1..] == s;
    }
  }

  /** "(required)" with the whitespace before it is dropped, and scanning goes
      on after it. */
  lemma {:induction false} RemoveRequiredMatch(w: string, rest: string)
    requires forall i :: 0 <= i < |w| ==> IsSpace(w[i])
    ensures RemoveRequired(w + RequiredLabel + rest) == RemoveRequired(rest)
  {
    var s := w + RequiredLabel + rest;
    LeadingSpacesBefore(w, RequiredLabel + rest);
    assert s == w + (RequiredLabel + rest);
    assert s[|w|..|w| + |RequiredLabel|] == RequiredLabel;
    assert s[|w| + |RequiredLabel|..] == rest;
  }

  /** A whitespace prefix ahead of a non-space character is exactly the
      leading run. */
  lemma {:induction false} LeadingSpacesBefore(w: string, t: string)
    requires forall i :: 0 <= i < |w| ==> IsSpace(w[i])
    requires t != [] && !IsSpace(t[0])
    ensures LeadingSpaces(w + t) == |w|
    decreases |w|
  {
    if w != [] {
      assert (w + t)[1..] == w[1..] + t;
      LeadingSpacesBefore(w[1..], t);
    }
  }

  /** A character that does not start a removal is kept. */
  lemma {:induction false} RemoveRequiredKeeps(c: char, rest: string)
    requires !RequiredAt([c] + rest, LeadingSpaces([c] + rest))
    ensures RemoveRequired([c] + rest) == [c] + RemoveRequired(rest)
  {
    assert ([c] + rest)[1..] == rest;
  }

  /** The clean-up applied to the skill labels of the rising-skills table:
      remove "(required)" with its leading whitespace, then `strip()`. */
  function CleanLabel(name: string): (r: string)
    ensures |r| <= |name|
    ensures r == [] || (!IsSpace(r[0]) && !IsSpace(r[|r| - 1]))
  {
    Strip(RemoveRequired(name))
  }

  /** A name without "(required)" changes only by stripping. */
  lemma {:induction false} CleanLabelWithoutRequired(name: string)
    requires forall i :: 0 <= i <= |name| ==> !RequiredAt(name, i)
    ensures CleanLabel(name) == Strip(name)
  {
    RemoveRequiredAbsent(name);
  }

  /** Python's `a <= b` on strings: lexicographic by code point, a proper
      prefix first. */
  predicate StrLe(a: string, b: string)
    decreases |a|
  {
    a == [] || (b != [] && (a[0] < b[0] || (a[0] == b[0] && StrLe(a[1..], b[1..]))))
  }

  lemma {:induction false} StrLeTotal(a: string, b: string)
    ensures StrLe(a, b) || StrLe(b, a)
    decreases |a|
  {
    if a != [] && b != [] && a[0] == b[0] {
      StrLeTotal(a[1..], b[1..]);
    }
  }

  lemma {:induction false} StrLeTransitive(a: string, b: string, c: string)
    requires StrLe(a, b) && StrLe(b, c)
    ensures StrLe(a, c)
    decreases |a|
  {
    if a != [] && a[0] == b[0] && b[0] == c[0] {
      StrLeTransitive(a[1..], b[1..], c[1..]);
    }
  }

  lemma StrLeIsPreorder()
    ensures TotalPreorder(StrLe)
  {
    forall a, b ensures StrLe(a, b) || StrLe(b, a) { StrLeTotal(a, b); }
    forall a, b, c | StrLe(a, b) && StrLe(b, c) ensures StrLe(a, c) { StrLeTransitive(a, b, c); }
  }
}
