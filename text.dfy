/** The Python string operations the scripts rely on, over code points:
    `str.strip()`, `str.replace('nan', '')`, `str.split(',')`, `' '.join(...)`
    and the ordering `sorted` uses on strings. */
module Text {

  /** Python's `str.isspace` on one code point: the characters that `str.strip()`
      with no argument removes (ASCII whitespace, the separators U+001C..U+001F,
      NEL, NBSP, the Unicode space separators and the ideographic space U+3000). */
  predicate IsSpace(c: char)
  {
    var u := c as int;
    (9 <= u <= 13) || (0x1c <= u <= 0x20) || u == 0x85 || u == 0xa0 || u == 0x1680
    || (0x2000 <= u <= 0x200a) || u == 0x2028 || u == 0x2029 || u == 0x202f
    || u == 0x205f || u == 0x3000
  }

  /** Removes the leading whitespace: what remains is a suffix of `s`, everything
      cut off is whitespace, and what remains does not start with whitespace. */
  function StripLeft(s: string): (r: string)
    ensures |r| <= |s| && r == s[|s| - |r|..]
    ensures forall k :: 0 <= k < |s| - |r| ==> IsSpace(s[k])
    ensures r == [] || !IsSpace(r[0])
  {
    if |s| > 0 && IsSpace(s[0]) then StripLeft(s[1..]) else s
  }

  /** Removes the trailing whitespace: what remains is a prefix of `s`, everything
      cut off is whitespace, and what remains does not end with whitespace. */
  function StripRight(s: string): (r: string)
    ensures |r| <= |s| && r == s[..|r|]
    ensures forall k :: |r| <= k < |s| ==> IsSpace(s[k])
    ensures r == [] || !IsSpace(r[|r| - 1])
  {
    if |s| > 0 && IsSpace(s[|s| - 1]) then StripRight(s[..|s| - 1]) else s
  }

  /** Python's `s.strip()`. */
  function Strip(s: string): string
  {
    StripRight(StripLeft(s))
  }

  /** `Strip` keeps a contiguous slice of its input, removes only whitespace,
      and leaves no whitespace at either end. */
  lemma StripIsTrimmedSlice(s: string)
    ensures exists i, j :: 0 <= i <= j <= |s| && Strip(s) == s[i..j]
              && (forall k :: 0 <= k < i ==> IsSpace(s[k]))
              && (forall k :: j <= k < |s| ==> IsSpace(s[k]))
    ensures Strip(s) == [] || (!IsSpace(Strip(s)[0]) && !IsSpace(Strip(s)[|Strip(s)| - 1]))
  {
    var l := StripLeft(s);
    var i := |s| - |l|;
    var r := StripRight(l);
    var j := i + |r|;
    assert r == s[i..j] by {
      assert l == s[i..];
      assert r == l[..|r|];
    }
    forall k | j <= k < |s| ensures IsSpace(s[k]) {
      assert s[k] == l[k - i];
    }
  }

  /** A string is stripped to nothing exactly when it is all whitespace. */
  lemma StripEmptyIffBlank(s: string)
    ensures Strip(s) == [] <==> forall k :: 0 <= k < |s| ==> IsSpace(s[k])
  {
  }

  /** Stripping twice is stripping once. */
  lemma StripIdempotent(s: string)
    ensures Strip(Strip(s)) == Strip(s)
  {
    var r := Strip(s);
    if r != [] {
      assert StripLeft(r) == r;
      assert StripRight(r) == r;
    }
  }

  /** Python's `s.replace('nan', '')`: one left-to-right pass that deletes each
      non-overlapping occurrence of `nan` it meets. */
  function RemoveNan(s: string): (r: string)
    ensures |r| <= |s|
    ensures (|s| - |r|) % 3 == 0
  {
    if |s| == 0 then ""
    else if |s| >= 3 && s[..3] == "nan" then RemoveNan(s[3..])
    else [s[0]] + RemoveNan(s[1..])
  }

  /** `nan` occurs in `s` starting at position `k`. */
  predicate NanAt(s: string, k: int)
  {
    0 <= k && k + 3 <= |s| && s[k..k + 3] == "nan"
  }

  ghost predicate ContainsNan(s: string)
  {
    exists k :: NanAt(s, k)
  }

  /** Text without any `nan` in it passes through unchanged, and only such text does. */
  lemma {:induction false} RemoveNanIdentity(s: string)
    ensures RemoveNan(s) == s <==> !ContainsNan(s)
  {
    if |s| > 0 {
      if |s| >= 3 && s[..3] == "nan" {
        assert NanAt(s, 0);
      } else {
        RemoveNanIdentity(s[1..]);
        assert RemoveNan(s) == [s[0]] + RemoveNan(s[1..]);
        assert RemoveNan(s) == s <==> RemoveNan(s[1..]) == s[1..] by {
          assert s == [s[0]] + s[1..];
        }
        if ContainsNan(s[1..]) {
          var k :| NanAt(s[1..], k);
          assert s[k + 1..k + 4] == s[1..][k..k + 3];
          assert NanAt(s, k + 1);
        }
        if ContainsNan(s) {
          var k :| NanAt(s, k);
          assert k != 0 by { assert s[..3] == s[0..3]; }
          assert s[1..][k - 1..k + 2] == s[k..k + 3];
          assert NanAt(s[1..], k - 1);
        }
      }
    }
  }

  /** The single pass is not a fixpoint: deleting an inner `nan` can join the
      neighbouring letters into a new one, which survives. */
  lemma RemoveNanMayLeaveNan()
    ensures RemoveNan("nnanan") == "nan"
    ensures ContainsNan(RemoveNan("nnanan"))
  {
    assert "nnanan"[..3] == "nna";
    assert "nnanan"[1..][..3] == "nan";
    assert "nnanan"[1..][3..] == "an";
    assert "an"[1..] == "n";
    assert NanAt("nan", 0);
  }

  /** Python's `sep.join(xs)`. */
  function Join(xs: seq<string>, sep: string): string
  {
    if |xs| == 0 then ""
    else if |xs| == 1 then xs[0]
    else xs[0] + sep + Join(xs[1..], sep)
  }

  /** Python's `s.split(sep)` for a one-character separator: the fields contain no
      separator, there is always at least one field, and joining them back with the
      separator gives `s` again. */
  function Split(s: string, sep: char): (r: seq<string>)
    ensures |r| >= 1
    ensures forall k :: 0 <= k < |r| ==> sep !in r[k]
    ensures Join(r, [sep]) == s
  {
    if |s| == 0 then [""]
    else
      var rest := Split(s[1..], sep);
      if s[0] == sep then
        assert Join([""] + rest, [sep]) == [sep] + Join(rest, [sep]) by {
          assert ([""] + rest)[1..] == rest;
        }
        [""] + rest
      else
        var r := [[s[0]] + rest[0]] + rest[1..];
        assert Join(r, [sep]) == [s[0]] + Join(rest, [sep]) by {
          if |rest| > 1 {
            assert r[1..] == rest[1..];
          }
        }
        r
  }

  /** Python's `a < b` on strings: lexicographic by code point, a proper prefix first. */
  predicate Less(a: string, b: string)
  {
    if |a| == 0 then |b| > 0
    else if |b| == 0 then false
    else if a[0] != b[0] then a[0] < b[0]
    else Less(a[1..], b[1..])
  }

  lemma {:induction false} LessAsymmetric(a: string, b: string)
    ensures Less(a, b) ==> !Less(b, a)
  {
    if |a| > 0 && |b| > 0 && a[0] == b[0] {
      LessAsymmetric(a[1..], b[1..]);
    }
  }

  lemma {:induction false} LessTotal(a: string, b: string)
    ensures a == b || Less(a, b) || Less(b, a)
  {
    if |a| > 0 && |b| > 0 && a[0] == b[0] {
      LessTotal(a[1..], b[1..]);
      if a[1..] == b[1..] {
        assert a == [a[0]] + a[1..] && b == [b[0]] + b[1..];
      }
    }
  }
}
