/** The Python `str` and `os.path` operations the scripts build on: slicing,
    `strip`, `lower`, `startswith`/`endswith`, `find`, `split`, `replace`,
    `os.path.splitext` and `os.path.join`, each on `string = seq<char>`. */
module PyStr {
  import opened Types

  function Min(a: int, b: int): int
  {
    if a <= b then a else b
  }

  /** Python's `str.isspace` for one character: the characters `strip()` removes. */
  predicate IsSpace(c: char)
  {
    ('\U{0009}' <= c <= '\U{000D}') || ('\U{001C}' <= c <= '\U{0020}') ||
    c == '\U{0085}' || c == '\U{00A0}' || c == '\U{1680}' ||
    ('\U{2000}' <= c <= '\U{200A}') || c == '\U{2028}' || c == '\U{2029}' ||
    c == '\U{202F}' || c == '\U{205F}' || c == '\U{3000}'
  }

  /** `s[i:j]` with non-negative bounds: clamped to the length, empty when `j <= i`. */
  function Slice(s: string, i: nat, j: nat): (r: string)
    ensures |r| == if i < j && i < |s| then Min(j, |s|) - i else 0
    ensures forall k :: 0 <= k < |r| ==> r[k] == s[i + k]
  {
    if i < j && i < |s| then s[i..Min(j, |s|)] else ""
  }

  predicate StartsWith(s: string, prefix: string)
  {
    prefix <= s
  }

  predicate EndsWith(s: string, suffix: string)
  {
    |suffix| <= |s| && s[|s| - |suffix|..] == suffix
  }

  /** Number of whitespace characters `strip()` removes at the front. */
  function LeadingSpaces(s: string): (n: nat)
    ensures n <= |s|
    ensures forall k :: 0 <= k < n ==> IsSpace(s[k])
    ensures n < |s| ==> !IsSpace(s[n])
  {
    if s == [] || !IsSpace(s[0]) then 0 else 1 + LeadingSpaces(s[1..])
  }

  /** Number of whitespace characters `strip()` removes at the back. */
  function TrailingSpaces(s: string): (n: nat)
    ensures n <= |s|
    ensures forall k :: |s| - n <= k < |s| ==> IsSpace(s[k])
    ensures n < |s| ==> !IsSpace(s[|s| - 1 - n])
  {
    if s == [] || !IsSpace(s[|s| - 1]) then 0 else 1 + TrailingSpaces(s[..|s| - 1])
  }

  /** `s.strip()`: the unique infix of `s` that is bordered by whitespace only
      and neither starts nor ends with whitespace. */
  function Strip(s: string): (r: string)
    ensures LeadingSpaces(s) + |r| <= |s|
    ensures r == s[LeadingSpaces(s)..LeadingSpaces(s) + |r|]
    ensures forall k :: LeadingSpaces(s) + |r| <= k < |s| ==> IsSpace(s[k])
    ensures r == [] || (!IsSpace(r[0]) && !IsSpace(r[|r| - 1]))
  {
    var t := s[LeadingSpaces(s)..];
    t[..|t| - TrailingSpaces(t)]
  }

  /** A string without surrounding whitespace is its own strip. */
  lemma {:induction false} StripKeepsTrimmed(s: string)
    requires s == [] || (!IsSpace(s[0]) && !IsSpace(s[|s| - 1]))
    ensures Strip(s) == s
  {
    assert LeadingSpaces(s) == 0;
    assert s[0..] == s;
  }

  lemma {:induction false} StripIdempotent(s: string)
    ensures Strip(Strip(s)) == Strip(s)
  {
    StripKeepsTrimmed(Strip(s));
  }

  /** A name that starts or ends with whitespace is never the result of `strip()`. */
  lemma {:induction false} PaddedIsNeverStripped(name: string, s: string)
    requires name != [] && (IsSpace(name[0]) || IsSpace(name[|name| - 1]))
    ensures Strip(s) != name
  {
  }

  /** `c.lower()` on ASCII letters; every other character is left alone. */
  function LowerChar(c: char): (d: char)
    ensures 'A' <= c <= 'Z' ==> 'a' <= d <= 'z' && d as int - c as int == 32
    ensures !('A' <= c <= 'Z') ==> d == c
  {
    if 'A' <= c <= 'Z' then (c as int + 32) as char else c
  }

  /** `s.lower()` restricted to ASCII case folding. */
  function Lower(s: string): (r: string)
    ensures |r| == |s|
    ensures forall k :: 0 <= k < |s| ==> r[k] == LowerChar(s[k])
  {
    seq(|s|, k requires 0 <= k < |s| => LowerChar(s[k]))
  }

  /** `s.lower() == "all"` holds exactly for the eight spellings of "all". */
  lemma {:induction false} LowerIsAll(s: string)
    ensures Lower(s) == "all" <==>
      |s| == 3 && s[0] in {'a', 'A'} && s[1] in {'l', 'L'} && s[2] in {'l', 'L'}
  {
    if |s| == 3 && s[0] in {'a', 'A'} && s[1] in {'l', 'L'} && s[2] in {'l', 'L'} {
      assert Lower(s)[0] == 'a' && Lower(s)[1] == 'l' && Lower(s)[2] == 'l';
    }
    if Lower(s) == "all" {
      assert LowerChar(s[0]) == 'a' && LowerChar(s[1]) == 'l' && LowerChar(s[2]) == 'l';
    }
  }

  /** `p` occurs in `s` starting at index `i`. */
  predicate OccursAt(s: string, p: string, i: nat)
  {
    i + |p| <= |s| && s[i..i + |p|] == p
  }

  /** `p in s`. */
  predicate Contains(s: string, p: string)
  {
    exists i: nat :: i <= |s| && OccursAt(s, p, i)
  }

  /** `s.find(p, i)`, with None for -1. */
  function FindFrom(s: string, p: string, i: nat): (r: Option<nat>)
    requires i <= |s|
    ensures r.Some? ==> i <= r.value && OccursAt(s, p, r.value)
    ensures r.Some? ==> forall k: nat :: i <= k < r.value ==> !OccursAt(s, p, k)
    ensures r.None? ==> forall k: nat :: i <= k ==> !OccursAt(s, p, k)
    decreases |s| - i
  {
    if OccursAt(s, p, i) then Some(i)
    else if i == |s| then None
    else FindFrom(s, p, i + 1)
  }

  /** `s.find(p)`: the first occurrence, None when there is none. */
  function Find(s: string, p: string): (r: Option<nat>)
    ensures r.Some? ==> OccursAt(s, p, r.value)
    ensures r.Some? ==> forall k: nat :: k < r.value ==> !OccursAt(s, p, k)
    ensures r.None? <==> !Contains(s, p)
  {
    FindFrom(s, p, 0)
  }

  /** The text before the first occurrence of `p` holds no occurrence of `p`. */
  lemma {:induction false} BeforeFirstIsFree(s: string, p: string, i: nat)
    requires p != ""
    requires Find(s, p) == Some(i)
    ensures !Contains(s[..i], p)
  {
    forall k: nat | OccursAt(s[..i], p, k)
      ensures false
    {
      assert s[..i][k..k + |p|] == s[k..k + |p|];
      assert OccursAt(s, p, k);
    }
  }

  /** `sep.join(parts)`. */
  function Join(parts: seq<string>, sep: string): string
  {
    if parts == [] then ""
    else if |parts| == 1 then parts[0]
    else parts[0] + sep + Join(parts[1..], sep)
  }

  /** `s.split(sep)` for a non-empty separator: the pieces between the
      occurrences found scanning left to right. Joining them back with `sep`
      gives `s`, and no piece holds `sep`. */
  function Split(s: string, sep: string): (parts: seq<string>)
    requires sep != ""
    ensures parts != []
    ensures forall k :: 0 <= k < |parts| ==> !Contains(parts[k], sep)
    ensures Join(parts, sep) == s
    decreases |s|
  {
    match Find(s, sep)
    case None => [s]
    case Some(i) =>
      BeforeFirstIsFree(s, sep, i);
      var rest := Split(s[i + |sep|..], sep);
      assert s == s[..i] + sep + s[i + |sep|..];
      assert ([s[..i]] + rest)[1..] == rest;
      [s[..i]] + rest
  }

  /** The last of `parts` is a suffix of `sep.join(parts)`. */
  lemma {:induction false} JoinEndsWithLast(parts: seq<string>, sep: string)
    requires parts != []
    ensures EndsWith(Join(parts, sep), parts[|parts| - 1])
  {
    if |parts| > 1 {
      JoinEndsWithLast(parts[1..], sep);
      var j := Join(parts[1..], sep);
      var last := parts[|parts| - 1];
      assert (parts[0] + sep + j)[|parts[0] + sep + j| - |last|..] == j[|j| - |last|..];
    }
  }

  /** With two pieces or more, the separator and the last piece end the join. */
  lemma {:induction false} JoinEndsWithSepLast(parts: seq<string>, sep: string)
    ensures |parts| >= 2 ==> EndsWith(Join(parts, sep), sep + parts[|parts| - 1])
  {
    if |parts| < 2 {
      return;
    }
    var last := parts[|parts| - 1];
    if |parts| == 2 {
      assert parts[1..] == [last];
      var j := parts[0] + sep + last;
      assert j[|j| - |sep + last|..] == sep + last;
    } else {
      JoinEndsWithSepLast(parts[1..], sep);
      var j := Join(parts[1..], sep);
      var t := sep + last;
      assert (parts[0] + sep + j)[|parts[0] + sep + j| - |t|..] == j[|j| - |t|..];
    }
  }

  /** `s.split(sep)[-1]`: the text after the last occurrence of `sep`, or all
      of `s` when `sep` does not occur. */
  function LastPiece(s: string, sep: string): (r: string)
    requires sep != ""
    ensures EndsWith(s, r)
    ensures !Contains(r, sep)
    ensures !Contains(s, sep) ==> r == s
    ensures Contains(s, sep) ==> EndsWith(s, sep + r)
  {
    var parts := Split(s, sep);
    JoinEndsWithLast(parts, sep);
    JoinEndsWithSepLast(parts, sep);
    parts[|parts| - 1]
  }

  /** `s.count(p)`: the occurrences found scanning left to right, the same
      scan `split` and `replace` make. */
  function CountOccurrences(s: string, p: string): nat
    requires p != ""
    decreases |s|
  {
    match Find(s, p)
    case None => 0
    case Some(i) => 1 + CountOccurrences(s[i + |p|..], p)
  }

  /** `s.replace(p, "")`: every occurrence found scanning left to right is
      dropped, in one pass, so the length falls by `|p|` per occurrence. */
  function RemoveAll(s: string, p: string): (r: string)
    requires p != ""
    ensures |r| <= |s|
    ensures !Contains(s, p) ==> r == s
    decreases |s|
  {
    match Find(s, p)
    case None => s
    case Some(i) => s[..i] + RemoveAll(s[i + |p|..], p)
  }

  /** `replace(p, "")` shortens the string by `|p|` per occurrence `count` finds. */
  lemma {:induction false} RemoveAllLength(s: string, p: string)
    requires p != ""
    ensures |RemoveAll(s, p)| + |p| * CountOccurrences(s, p) == |s|
    decreases |s|
  {
    match Find(s, p)
    case None =>
    case Some(i) =>
      var rest := s[i + |p|..];
      RemoveAllStep(s, p, i);
      RemoveAllLength(rest, p);
      assert CountOccurrences(s, p) == 1 + CountOccurrences(rest, p);
      MulSucc(|p|, CountOccurrences(rest, p));
  }

  lemma {:induction false} MulSucc(m: nat, n: nat)
    ensures m * (1 + n) == m + m * n
  {
  }

  lemma {:induction false} JoinCons(head: string, tail: seq<string>, sep: string)
    requires tail != []
    ensures Join([head] + tail, sep) == head + sep + Join(tail, sep)
  {
    assert ([head] + tail)[1..] == tail;
  }

  /** `s.replace(p, "") == "".join(s.split(p))`: both scan for the same occurrences. */
  lemma {:induction false} RemoveAllJoinsPieces(s: string, p: string)
    requires p != ""
    ensures RemoveAll(s, p) == Join(Split(s, p), "")
    decreases |s|
  {
    match Find(s, p)
    case None =>
    case Some(i) =>
      var rest := s[i + |p|..];
      SplitStep(s, p, i);
      RemoveAllStep(s, p, i);
      RemoveAllJoinsPieces(rest, p);
      JoinCons(s[..i], Split(rest, p), "");
  }

  lemma {:induction false} SplitStep(s: string, p: string, i: nat)
    requires p != "" && Find(s, p) == Some(i)
    ensures Split(s, p) == [s[..i]] + Split(s[i + |p|..], p)
  {
  }

  lemma {:induction false} RemoveAllStep(s: string, p: string, i: nat)
    requires p != "" && Find(s, p) == Some(i)
    ensures RemoveAll(s, p) == s[..i] + RemoveAll(s[i + |p|..], p)
  {
  }


  /** `"P, C5'".split(",")`: the space after the comma stays in the second piece. */
  lemma SplitKeepsSpaceAfterComma()
    ensures Split("P, C5'", ",") == ["P", " C5'"]
  {
    var input := "P, C5'";
    assert OccursAt(input, ",", 1);
    assert input[0..1] == "P";
    assert !OccursAt(input, ",", 0);
    assert Find(input, ",") == Some(1);
    var rest := input[2..];
    assert rest == " C5'";
    forall i: nat | i <= |rest| ensures !OccursAt(rest, ",", i) {
      if i + 1 <= |rest| {
        assert rest[i..i + 1] == [rest[i]];
      }
    }
    assert Find(rest, ",") == None;
    assert Split(rest, ",") == [rest];
    assert input[..1] == "P";
  }

  /** Index of the last `c` in `s`, or -1: `s.rfind(c)`. */
  function LastIndexOf(s: string, c: char): (r: int)
    ensures -1 <= r < |s|
    ensures r >= 0 ==> s[r] == c
    ensures forall k :: r < k < |s| ==> s[k] != c
  {
    if s == [] then -1
    else if s[|s| - 1] == c then |s| - 1
    else LastIndexOf(s[..|s| - 1], c)
  }

  /** `os.path.splitext(p)[0]` for a POSIX path: the extension starts at the
      last dot of the last path component, unless only dots precede it there. */
  function Root(p: string): (r: string)
    ensures r <= p
    ensures r != p ==> p[|r|] == '.' && forall k :: |r| < k < |p| ==> p[k] != '.' && p[k] != '/'
  {
    var sepIndex := LastIndexOf(p, '/');
    var dotIndex := LastIndexOf(p, '.');
    if sepIndex < dotIndex && exists k :: sepIndex < k < dotIndex && p[k] != '.' then p[..dotIndex]
    else p
  }

  /** The root of `stem + ext` is `stem` for an extension such as `.pdb`, when
      `stem` is a plain file name that is not made of dots only. */
  lemma {:induction false} RootOfExtension(stem: string, ext: string)
    requires '/' !in stem && exists k :: 0 <= k < |stem| && stem[k] != '.'
    requires |ext| > 0 && ext[0] == '.' && '.' !in ext[1..] && '/' !in ext
    ensures Root(stem + ext) == stem
  {
    var p := stem + ext;
    assert p[|stem|] == '.';
    assert forall k :: |stem| < k < |p| ==> p[k] == ext[1..][k - |stem| - 1];
    var dotIndex := LastIndexOf(p, '.');
    assert dotIndex == |stem|;
    var sepIndex := LastIndexOf(p, '/');
    assert forall k :: 0 <= k < |p| ==> p[k] != '/' by {
      forall k | 0 <= k < |p| ensures p[k] != '/' {
        if k < |stem| { assert p[k] == stem[k]; } else { assert p[k] == ext[k - |stem|]; }
      }
    }
    assert sepIndex == -1;
    var w :| 0 <= w < |stem| && stem[w] != '.';
    assert p[w] == stem[w];
    assert p[..dotIndex] == stem;
  }

  /** `os.path.join(a, b)` for POSIX paths. */
  function JoinPath(a: string, b: string): (r: string)
    ensures EndsWith(r, b)
    ensures !StartsWith(b, "/") && a != "" ==> StartsWith(r, a)
  {
    if StartsWith(b, "/") then b
    else if a == "" || EndsWith(a, "/") then a + b
    else a + "/" + b
  }
}
