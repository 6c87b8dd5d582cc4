/** The string setters the schemas declare (`trim`, `uppercase`, `lowercase`)
    and the comma split of the product filter. */
module Text {

  /** The white space `String.prototype.trim` removes, restricted to the
      ASCII controls, the space, no-break space and the byte-order mark. */
  predicate IsSpace(c: char)
  {
    c == ' ' || c == '\t' || c == '\n' || c == '\r' || c == '\U{000B}' || c == '\U{000C}'
    || c == '\U{00A0}' || c == '\U{FEFF}'
  }

  /** A string with no white space at either end: what a `trim: true` path stores. */
  predicate Trimmed(s: string)
  {
    s == [] || (!IsSpace(s[0]) && !IsSpace(s[|s| - 1]))
  }

  /** Drops the leading white space: the result is the suffix of `s` after it. */
  function TrimStart(s: string): (r: string)
    ensures |r| <= |s| && r == s[|s| - |r|..]
    ensures r == [] || !IsSpace(r[0])
    ensures forall i :: 0 <= i < |s| - |r| ==> IsSpace(s[i])
  {
    if s == [] || !IsSpace(s[0]) then s else TrimStart(s[1..])
  }

  /** Drops the trailing white space: the result is the prefix of `s` before it. */
  function TrimEnd(s: string): (r: string)
    ensures |r| <= |s| && r == s[..|r|]
    ensures r == [] || !IsSpace(r[|r| - 1])
    ensures forall i :: |r| <= i < |s| ==> IsSpace(s[i])
  {
    if s == [] || !IsSpace(s[|s| - 1]) then s else TrimEnd(s[..|s| - 1])
  }

  /** The `trim` setter. */
  function Trim(s: string): (r: string)
    ensures Trimmed(r)
    ensures |r| <= |s|
  {
    TrimEnd(TrimStart(s))
  }

  /** A trimmed string is left as it is, so the setter is idempotent. */
  lemma TrimOfTrimmed(s: string)
    requires Trimmed(s)
    ensures Trim(s) == s
  {
  }

  lemma TrimIdempotent(s: string)
    ensures Trim(Trim(s)) == Trim(s)
  {
    TrimOfTrimmed(Trim(s));
  }

  function UpperChar(c: char): char
  {
    if 'a' <= c <= 'z' then (c as int - 32) as char else c
  }

  function LowerChar(c: char): char
  {
    if 'A' <= c <= 'Z' then (c as int + 32) as char else c
  }

  /** The `uppercase` setter, on ASCII letters. */
  function ToUpper(s: string): string
  {
    seq(|s|, i requires 0 <= i < |s| => UpperChar(s[i]))
  }

  /** The `lowercase` setter, on ASCII letters. */
  function ToLower(s: string): string
  {
    seq(|s|, i requires 0 <= i < |s| => LowerChar(s[i]))
  }

  predicate NoLowerCase(s: string)
  {
    forall i :: 0 <= i < |s| ==> !('a' <= s[i] <= 'z')
  }

  predicate NoUpperCase(s: string)
  {
    forall i :: 0 <= i < |s| ==> !('A' <= s[i] <= 'Z')
  }

  lemma SliceKeepsNoCase(s: string, k: nat, n: nat)
    requires k <= n <= |s|
    ensures NoLowerCase(s) ==> NoLowerCase(s[k..n])
    ensures NoUpperCase(s) ==> NoUpperCase(s[k..n])
  {
    forall i | 0 <= i < n - k ensures s[k..n][i] == s[k + i] {
    }
  }

  /** Trimming keeps a piece of the string, so it adds no letter of either case. */
  lemma TrimKeepsNoCase(s: string)
    ensures NoLowerCase(s) ==> NoLowerCase(Trim(s))
    ensures NoUpperCase(s) ==> NoUpperCase(Trim(s))
  {
    var a := TrimStart(s);
    var r := TrimEnd(a);
    SliceKeepsNoCase(s, |s| - |a|, |s|);
    assert a == s[|s| - |a|..|s|];
    SliceKeepsNoCase(a, 0, |r|);
    assert r == a[0..|r|];
  }

  lemma ToUpperHasNoLowerCase(s: string)
    ensures NoLowerCase(ToUpper(s))
  {
  }

  lemma ToLowerHasNoUpperCase(s: string)
    ensures NoUpperCase(ToLower(s))
  {
  }

  /** What a coupon `code` path stores: `uppercase` then `trim`. */
  function NormalizeCode(s: string): (r: string)
    ensures Trimmed(r) && NoLowerCase(r)
  {
    ToUpperHasNoLowerCase(s);
    TrimKeepsNoCase(ToUpper(s));
    Trim(ToUpper(s))
  }

  /** What a category `slug` path stores: `lowercase` then `trim`. */
  function NormalizeSlug(s: string): (r: string)
    ensures Trimmed(r) && NoUpperCase(r)
  {
    ToLowerHasNoUpperCase(s);
    TrimKeepsNoCase(ToLower(s));
    Trim(ToLower(s))
  }

  /** A string the setters would leave alone is its own normal form. */
  lemma NormalCodeIsFixed(s: string)
    requires Trimmed(s) && NoLowerCase(s)
    ensures NormalizeCode(s) == s
  {
    assert ToUpper(s) == s;
    TrimOfTrimmed(s);
  }

  lemma NormalSlugIsFixed(s: string)
    requires Trimmed(s) && NoUpperCase(s)
    ensures NormalizeSlug(s) == s
  {
    assert ToLower(s) == s;
    TrimOfTrimmed(s);
  }

  /** Storing an already stored code again changes nothing. */
  lemma NormalizeCodeIdempotent(s: string)
    ensures NormalizeCode(NormalizeCode(s)) == NormalizeCode(s)
  {
    NormalCodeIsFixed(NormalizeCode(s));
  }

  lemma NormalizeSlugIdempotent(s: string)
    ensures NormalizeSlug(NormalizeSlug(s)) == NormalizeSlug(s)
  {
    NormalSlugIsFixed(NormalizeSlug(s));
  }

  /** `s.split(sep)`: the pieces between separators, empty pieces included;
      there is always at least one piece. */
  function Split(s: string, sep: char): (parts: seq<string>)
    ensures |parts| >= 1
    ensures forall i :: 0 <= i < |parts| ==> sep !in parts[i]
  {
    if |s| == 0 then [""]
    else
      var rest := Split(s[1..], sep);
      if s[0] == sep then [""] + rest
      else [[s[0]] + rest[0]] + rest[1..]
  }

  /** `parts.join(sep)`. */
  function Join(parts: seq<string>, sep: char): string
    requires |parts| >= 1
  {
    if |parts| == 1 then parts[0] else parts[0] + [sep] + Join(parts[1..], sep)
  }

  lemma JoinConsFirst(c: char, parts: seq<string>, sep: char)
    requires |parts| >= 1
    ensures Join([[c] + parts[0]] + parts[1..], sep) == [c] + Join(parts, sep)
  {
    var q := [[c] + parts[0]] + parts[1..];
    assert q[1..] == parts[1..];
  }

  /** Splitting loses nothing: joining the pieces gives the string back. */
  lemma {:induction false} JoinOfSplit(s: string, sep: char)
    ensures Join(Split(s, sep), sep) == s
  {
    if |s| > 0 {
      var rest := Split(s[1..], sep);
      JoinOfSplit(s[1..], sep);
      if s[0] == sep {
        assert ([""] + rest)[1..] == rest;
        assert s == [sep] + s[1..];
      } else {
        JoinConsFirst(s[0], rest, sep);
        assert s == [s[0]] + s[1..];
      }
    }
  }

  lemma {:induction false} SplitOfJoinHead(p: string, t: string, sep: char)
    requires sep !in p
    ensures Split(p + [sep] + t, sep) == [p] + Split(t, sep)
    ensures Split(p, sep) == [p]
  {
    if |p| > 0 {
      assert (p + [sep] + t)[1..] == p[1..] + [sep] + t;
      SplitOfJoinHead(p[1..], t, sep);
      assert [p[0]] + p[1..] == p;
    } else {
      assert p + [sep] + t == [sep] + t;
      assert ([sep] + t)[1..] == t;
    }
  }

  /** Pieces free of the separator come back from a split of their join. */
  lemma {:induction false} SplitOfJoin(parts: seq<string>, sep: char)
    requires |parts| >= 1
    requires forall i :: 0 <= i < |parts| ==> sep !in parts[i]
    ensures Split(Join(parts, sep), sep) == parts
  {
    if |parts| == 1 {
      SplitOfJoinHead(parts[0], "", sep);
    } else {
      SplitOfJoin(parts[1..], sep);
      SplitOfJoinHead(parts[0], Join(parts[1..], sep), sep);
      assert [parts[0]] + parts[1..] == parts;
    }
  }
}
