/**
 String operations of Go's `strings` package that the codecs rest on: trimming, ASCII case
 mapping, first occurrence, splitting and joining on a multi-character separator.
 */
module Text {
  import opened Wrappers

  // ---------- White space and case ----------

  /** unicode.IsSpace */
  predicate IsSpace(c: char) {
    || '\t' <= c <= '\r'
    || c == ' '
    || (c >= '\U{0080}' && IsWideSpace(c))
  }

  /** The white space beyond ASCII. */
  predicate IsWideSpace(c: char) {
    || c == '\U{0085}' || c == '\U{00A0}' || c == '\U{1680}'
    || '\U{2000}' <= c <= '\U{200A}'
    || c == '\U{2028}' || c == '\U{2029}' || c == '\U{202F}' || c == '\U{205F}' || c == '\U{3000}'
  }

  function TrimLeft(s: string): string {
    if s == "" || !IsSpace(s[0]) then s else TrimLeft(s[1..])
  }

  function TrimRight(s: string): string {
    if s == "" || !IsSpace(s[|s| - 1]) then s else TrimRight(s[..|s| - 1])
  }

  function TrimSpace(s: string): string {
    TrimRight(TrimLeft(s))
  }

  /** No white space at either end. */
  predicate Trimmed(s: string) {
    s == "" || (!IsSpace(s[0]) && !IsSpace(s[|s| - 1]))
  }

  lemma {:induction false} TrimLeftEdge(s: string)
    ensures TrimLeft(s) == "" || !IsSpace(TrimLeft(s)[0])
    ensures |TrimLeft(s)| <= |s| && TrimLeft(s) == s[|s| - |TrimLeft(s)|..]
  {
    if s != "" && IsSpace(s[0]) {
      TrimLeftEdge(s[1..]);
    }
  }

  lemma {:induction false} TrimRightEdge(s: string)
    ensures TrimRight(s) == "" || !IsSpace(TrimRight(s)[|TrimRight(s)| - 1])
    ensures TrimRight(s) <= s
  {
    if s != "" && IsSpace(s[|s| - 1]) {
      TrimRightEdge(s[..|s| - 1]);
    }
  }

  /** Trimming always yields trimmed text, and changes nothing exactly when the text is trimmed already. */
  lemma TrimSpaceFixes(s: string)
    ensures Trimmed(TrimSpace(s))
    ensures TrimSpace(s) == s <==> Trimmed(s)
  {
    TrimLeftEdge(s);
    TrimRightEdge(TrimLeft(s));
  }

  predicate Blank(s: string) {
    forall i :: 0 <= i < |s| ==> IsSpace(s[i])
  }

  lemma {:induction false} TrimLeftPadded(a: string, s: string)
    requires Blank(a) && s != "" && !IsSpace(s[0])
    ensures TrimLeft(a + s) == s
  {
    if a == "" {
      assert a + s == s;
    } else {
      TrimLeftPadded(a[1..], s);
      assert (a + s)[1..] == a[1..] + s;
    }
  }

  lemma {:induction false} TrimRightPadded(s: string, b: string)
    requires Blank(b) && s != "" && !IsSpace(s[|s| - 1])
    ensures TrimRight(s + b) == s
  {
    if b == "" {
      assert s + b == s;
    } else {
      TrimRightPadded(s, b[..|b| - 1]);
      assert (s + b)[..|s + b| - 1] == s + b[..|b| - 1];
    }
  }

  /** Trimming takes away exactly the white space around a text. */
  lemma TrimPadded(a: string, s: string, b: string)
    requires Blank(a) && Blank(b) && s != "" && Trimmed(s)
    ensures TrimSpace(a + s + b) == s
  {
    assert a + s + b == a + (s + b);
    TrimLeftPadded(a, s + b);
    TrimRightPadded(s, b);
  }

  /** And a blank text altogether. */
  lemma {:induction false} TrimBlank(s: string)
    ensures Blank(s) <==> TrimSpace(s) == ""
  {
    TrimLeftBlank(s);
    TrimRightEdge(TrimLeft(s));
    TrimLeftEdge(s);
    if TrimLeft(s) != "" {
      TrimRightKeeps(TrimLeft(s));
    }
  }

  lemma {:induction false} TrimLeftBlank(s: string)
    ensures Blank(s) <==> TrimLeft(s) == ""
  {
    if s != "" {
      TrimLeftBlank(s[1..]);
      assert Blank(s) <==> IsSpace(s[0]) && Blank(s[1..]) by {
        assert forall i :: 1 <= i < |s| ==> s[i] == s[1..][i - 1];
      }
    }
  }

  lemma {:induction false} TrimRightKeeps(s: string)
    requires s != "" && !IsSpace(s[0])
    ensures TrimRight(s) != ""
  {
    if |s| > 1 && IsSpace(s[|s| - 1]) {
      TrimRightKeeps(s[..|s| - 1]);
    }
  }

  function LowerChar(c: char): char {
    if 'A' <= c <= 'Z' then c + 32 as char else c
  }

  function UpperChar(c: char): char {
    if 'a' <= c <= 'z' then c - 32 as char else c
  }

  function ToLower(s: string): (r: string)
    ensures |r| == |s| && forall i :: 0 <= i < |s| ==> r[i] == LowerChar(s[i])
  {
    seq(|s|, i requires 0 <= i < |s| => LowerChar(s[i]))
  }

  function ToUpper(s: string): (r: string)
    ensures |r| == |s| && forall i :: 0 <= i < |s| ==> r[i] == UpperChar(s[i])
  {
    seq(|s|, i requires 0 <= i < |s| => UpperChar(s[i]))
  }

  predicate IsLower(s: string) {
    forall i :: 0 <= i < |s| ==> !('A' <= s[i] <= 'Z')
  }

  lemma ToLowerFixes(s: string)
    ensures IsLower(ToLower(s))
    ensures IsLower(s) ==> ToLower(s) == s
    ensures ToLower(ToLower(s)) == ToLower(s)
  {
  }

  // ---------- Up to a character ----------

  function Before(s: string, c: char): (r: string)
    ensures |r| <= |s| && (c in s ==> |r| < |s|)
  {
    if s == "" || s[0] == c then "" else [s[0]] + Before(s[1..], c)
  }

  /** What stands before and after the first occurrence of a character. */
  lemma {:induction false} BeforeIs(a: string, c: char, x: string)
    requires c !in a
    ensures Before(a + [c] + x, c) == a && (a + [c] + x)[|a| + 1..] == x
  {
    if a != "" {
      BeforeIs(a[1..], c, x);
      assert (a + [c] + x)[1..] == a[1..] + [c] + x;
    }
  }

  /** Texts that agree, agree before and after the first occurrence of a character. */
  lemma BeforeAgrees(a: string, x: string, b: string, y: string, c: char)
    requires c !in a && c !in b && a + [c] + x == b + [c] + y
    ensures a == b && x == y
  {
    BeforeIs(a, c, x);
    BeforeIs(b, c, y);
  }

  // ---------- First occurrence ----------

  predicate OccursAt(s: string, sub: string, i: int) {
    0 <= i && i + |sub| <= |s| && s[i..i + |sub|] == sub
  }

  /** strings.Index: the leftmost occurrence. */
  function Index(s: string, sub: string): (r: Option<nat>)
    ensures r.Some? ==> OccursAt(s, sub, r.value) && forall j :: 0 <= j < r.value ==> !OccursAt(s, sub, j)
    ensures r.None? ==> forall j :: !OccursAt(s, sub, j)
  {
    if sub <= s then
      assert OccursAt(s, sub, 0);
      Some(0)
    else if s == "" then
      None
    else
      assert !OccursAt(s, sub, 0);
      var rest := Index(s[1..], sub);
      assert forall j :: j >= 1 ==> (OccursAt(s, sub, j) <==> OccursAt(s[1..], sub, j - 1)) by {
        forall j | j >= 1
          ensures OccursAt(s, sub, j) <==> OccursAt(s[1..], sub, j - 1)
        {
          if j + |sub| <= |s| {
            assert s[j..j + |sub|] == s[1..][j - 1..j - 1 + |sub|];
          }
        }
      }
      assert forall j :: !OccursAt(s, sub, j) || (j >= 1 && OccursAt(s[1..], sub, j - 1));
      match rest
      case Some(i) => Some(i + 1)
      case None => None
  }

  lemma IndexIs(s: string, sub: string, i: nat)
    requires OccursAt(s, sub, i)
    requires forall j :: 0 <= j < i ==> !OccursAt(s, sub, j)
    ensures Index(s, sub) == Some(i)
  {
    var r := Index(s, sub);
    assert r.Some?;
  }

  // ---------- Split and join ----------

  /** strings.Split for a non-empty separator: cut at the leftmost occurrence, again and again. */
  function Split(s: string, sep: string): (parts: seq<string>)
    requires sep != ""
    ensures parts != []
    decreases |s|
  {
    match Index(s, sep)
    case None => [s]
    case Some(i) => [s[..i]] + Split(s[i + |sep|..], sep)
  }

  /** strings.Join */
  function Join(parts: seq<string>, sep: string): string {
    if parts == [] then ""
    else if |parts| == 1 then parts[0]
    else parts[0] + sep + Join(parts[1..], sep)
  }

  lemma {:induction false} JoinSplit(s: string, sep: string)
    requires sep != ""
    ensures Join(Split(s, sep), sep) == s
    decreases |s|
  {
    match Index(s, sep)
    case None =>
    case Some(i) =>
      var rest := s[i + |sep|..];
      JoinSplit(rest, sep);
      assert Split(s, sep) == [s[..i]] + Split(rest, sep);
      assert Join(Split(s, sep), sep) == s[..i] + sep + rest;
      assert s == s[..i] + s[i..i + |sep|] + rest;
  }

  /** The separator written after `f` is the first one a reader of `f + sep` meets. */
  predicate SepSafe(f: string, sep: string) {
    Index(f + sep, sep) == Some(|f|)
  }

  /** What a list of fields must satisfy to survive joining and splitting. */
  predicate Separable(parts: seq<string>, sep: string) {
    if |parts| <= 1 then parts != [] && Index(parts[0], sep) == None
    else SepSafe(parts[0], sep) && Separable(parts[1..], sep)
  }

  /** Text after the separator does not move its first occurrence. */
  lemma IndexLocal(f: string, sep: string, rest: string)
    ensures Index(f + sep + rest, sep) == Index(f + sep, sep)
    ensures Index(f + sep, sep).Some? && Index(f + sep, sep).value <= |f|
  {
    var a, b := f + sep, f + sep + rest;
    assert a[|f|..|f| + |sep|] == sep;
    assert OccursAt(a, sep, |f|);
    var i := Index(a, sep).value;
    assert b[i..i + |sep|] == a[i..i + |sep|];
    assert OccursAt(b, sep, i);
    forall j | 0 <= j < i
      ensures !OccursAt(b, sep, j)
    {
      assert b[j..j + |sep|] == a[j..j + |sep|];
      assert !OccursAt(a, sep, j);
    }
    IndexIs(b, sep, i);
  }

  /** Splitting inverts joining exactly on separable field lists. */
  lemma {:induction false} SplitJoin(parts: seq<string>, sep: string)
    requires sep != "" && parts != []
    ensures Split(Join(parts, sep), sep) == parts <==> Separable(parts, sep)
    decreases |parts|
  {
    var f, rest := parts[0], parts[1..];
    assert parts == [f] + rest;
    if rest == [] {
      if Index(f, sep).Some? {
        assert |Split(f, sep)| >= 2;
      }
    } else {
      var tail := Join(rest, sep);
      IndexLocal(f, sep, tail);
      SplitJoin(rest, sep);
      SplitHead(f, sep, tail);
      assert Join(parts, sep) == f + sep + tail;
    }
  }

  /** The first field comes back exactly when it is separator-safe. */
  lemma SplitHead(f: string, sep: string, tail: string)
    requires sep != ""
    ensures SepSafe(f, sep) ==> Split(f + sep + tail, sep) == [f] + Split(tail, sep)
    ensures !SepSafe(f, sep) ==> Split(f + sep + tail, sep)[0] != f
  {
    var s := f + sep + tail;
    IndexLocal(f, sep, tail);
    var i := Index(s, sep).value;
    SplitAt(s, sep, i);
    if SepSafe(f, sep) {
      assert s[..i] == f;
      assert s[i + |sep|..] == tail;
    } else {
      assert |s[..i]| != |f|;
    }
  }

  lemma SplitAt(s: string, sep: string, i: nat)
    requires sep != "" && Index(s, sep) == Some(i)
    ensures Split(s, sep) == [s[..i]] + Split(s[i + |sep|..], sep)
  {
  }
}
