/** The string operations the recipe books rely on, with Python's meaning:
    `sep.join`, `str.split`, the `in` operator on strings, SQL `LIKE '%x%'`,
    `str.rstrip`, `str(n)` and `int(s)` on natural numbers. */
module Text {

  import opened Rows

  /** Number of occurrences of `c` in `s`. */
  function Count(s: string, c: char): nat
  {
    if |s| == 0 then 0 else (if s[0] == c then 1 else 0) + Count(s[1..], c)
  }

  lemma {:induction false} CountConcat(a: string, b: string, c: char)
    ensures Count(a + b, c) == Count(a, c) + Count(b, c)
  {
    if |a| == 0 {
      assert a + b == b;
    } else {
      assert (a + b)[0] == a[0];
      assert (a + b)[1..] == a[1..] + b;
      CountConcat(a[1..], b, c);
    }
  }

  lemma {:induction false} CountAbsent(s: string, c: char)
    requires c !in s
    ensures Count(s, c) == 0
  {
    if |s| > 0 {
      assert c !in s[1..];
      CountAbsent(s[1..], c);
    }
  }

  // ---------------------------------------------------------------- join / split

  /** Python's `sep.join(parts)` for a one-character separator. */
  function Join(parts: seq<string>, sep: char): string
  {
    if |parts| == 0 then ""
    else if |parts| == 1 then parts[0]
    else parts[0] + [sep] + Join(parts[1..], sep)
  }

  /** Python's `s.split(sep)`: at least one piece, one more piece than there are
      separators, and no piece holds the separator. */
  function Split(s: string, sep: char): (parts: seq<string>)
    ensures |parts| == Count(s, sep) + 1
    ensures forall p :: p in parts ==> sep !in p
  {
    if |s| == 0 then [""]
    else
      var rest := Split(s[1..], sep);
      if s[0] == sep then [""] + rest
      else [[s[0]] + rest[0]] + rest[1..]
  }

  /** A separator-free prefix `w` glues onto the first piece of what follows. */
  lemma {:induction false} SplitFreePrefix(w: string, t: string, sep: char)
    requires sep !in w
    ensures Split(w + t, sep) == [w + Split(t, sep)[0]] + Split(t, sep)[1..]
  {
    if |w| > 0 {
      assert (w + t)[1..] == w[1..] + t;
      assert sep !in w[1..];
      SplitFreePrefix(w[1..], t, sep);
      assert [w[0]] + (w[1..] + Split(t, sep)[0]) == w + Split(t, sep)[0];
    } else {
      assert w + t == t;
      assert w + Split(t, sep)[0] == Split(t, sep)[0];
      assert Split(t, sep) == [Split(t, sep)[0]] + Split(t, sep)[1..];
    }
  }

  /** Splitting a separator-free piece followed by a separator peels off that piece. */
  lemma SplitAtSeparator(w: string, t: string, sep: char)
    requires sep !in w
    ensures Split(w + [sep] + t, sep) == [w] + Split(t, sep)
  {
    SplitFreePrefix(w, [sep] + t, sep);
    assert w + [sep] + t == w + ([sep] + t);
    assert ([sep] + t)[1..] == t;
    assert Split([sep] + t, sep) == [""] + Split(t, sep);
    assert w + "" == w;
  }

  /** Joining and splitting again gives back the pieces, provided there is at
      least one piece and no piece holds the separator; `input().split(sep)`
      produces exactly such lists. */
  lemma {:induction false} SplitJoin(parts: seq<string>, sep: char)
    requires |parts| > 0
    requires forall p :: p in parts ==> sep !in p
    ensures Split(Join(parts, sep), sep) == parts
  {
    if |parts| == 1 {
      SplitFreePrefix(parts[0], "", sep);
      assert parts[0] + "" == parts[0];
    } else {
      SplitJoin(parts[1..], sep);
      SplitAtSeparator(parts[0], Join(parts[1..], sep), sep);
      assert parts == [parts[0]] + parts[1..];
    }
  }

  /** Splitting and joining again gives back the string, whatever it holds. */
  lemma {:induction false} JoinSplit(s: string, sep: char)
    ensures Join(Split(s, sep), sep) == s
  {
    if |s| > 0 {
      var rest := Split(s[1..], sep);
      JoinSplit(s[1..], sep);
      if s[0] == sep {
        assert ([""] + rest)[1..] == rest;
        assert s == [sep] + s[1..];
      } else {
        var parts := [[s[0]] + rest[0]] + rest[1..];
        assert parts[1..] == rest[1..];
        if |rest| == 1 {
          assert s == [s[0]] + s[1..];
        } else {
          assert Join(rest, sep) == rest[0] + [sep] + Join(rest[1..], sep);
          assert s == [s[0]] + s[1..];
        }
      }
    }
  }

  // ---------------------------------------------------------------- substrings

  /** Python's `frag in s`, scanning for the first position where `frag` starts. */
  predicate Contains(s: string, frag: string)
  {
    frag <= s || (|s| > 0 && Contains(s[1..], frag))
  }

  /** `frag` occurs in `s` starting at position `i`. */
  ghost predicate OccursAt(s: string, frag: string, i: int)
  {
    0 <= i && i + |frag| <= |s| && s[i..i + |frag|] == frag
  }

  lemma OccursAtStart(s: string, frag: string)
    ensures OccursAt(s, frag, 0) <==> frag <= s
  {
    if frag <= s {
      assert s[0..|frag|] == frag;
    }
  }

  /** The scan finds `frag` exactly when it occurs somewhere in `s`. */
  lemma {:induction false} ContainsIffOccurs(s: string, frag: string)
    ensures Contains(s, frag) <==> exists i :: OccursAt(s, frag, i)
  {
    OccursAtStart(s, frag);
    if frag <= s {
      assert OccursAt(s, frag, 0);
    } else if |s| == 0 {
      assert |frag| > 0;
    } else {
      ContainsIffOccurs(s[1..], frag);
      if exists i :: OccursAt(s[1..], frag, i) {
        var i :| OccursAt(s[1..], frag, i);
        assert s[1..][i..i + |frag|] == s[i + 1..i + 1 + |frag|];
        assert OccursAt(s, frag, i + 1);
      }
      if exists i :: OccursAt(s, frag, i) {
        var i :| OccursAt(s, frag, i) && i > 0;
        assert s[1..][i - 1..i - 1 + |frag|] == s[i..i + |frag|];
        assert OccursAt(s[1..], frag, i - 1);
      }
    }
  }

  /** ASCII lower-casing, as SQLite's LIKE folds case: only 'A'..'Z' change. */
  function LowerChar(c: char): char
  {
    if 'A' <= c <= 'Z' then (c as int + 32) as char else c
  }

  function Lower(s: string): (r: string)
    ensures |r| == |s|
  {
    seq(|s|, i requires 0 <= i < |s| => LowerChar(s[i]))
  }

  /** The fragment holds neither of LIKE's wildcards `%` and `_`. */
  predicate NoWildcards(frag: string)
  {
    '%' !in frag && '_' !in frag
  }

  /** `s LIKE '%' || frag || '%'` for a wildcard-free fragment: an ASCII
      case-insensitive substring test. */
  predicate Like(s: string, frag: string)
    requires NoWildcards(frag)
  {
    Contains(Lower(s), Lower(frag))
  }

  /** A case-sensitive match (Python `in`) is always a LIKE match; the converse
      fails (see LikeIgnoresCase). */
  lemma ContainsImpliesLike(s: string, frag: string)
    requires NoWildcards(frag)
    requires Contains(s, frag)
    ensures Like(s, frag)
  {
    ContainsIffOccurs(s, frag);
    var i :| OccursAt(s, frag, i);
    assert Lower(s)[i..i + |frag|] == Lower(frag) by {
      forall k | 0 <= k < |frag| ensures Lower(s)[i..i + |frag|][k] == Lower(frag)[k] {
        assert s[i..i + |frag|][k] == frag[k];
      }
    }
    assert OccursAt(Lower(s), Lower(frag), i);
    ContainsIffOccurs(Lower(s), Lower(frag));
  }

  /** LIKE finds "Egg" where Python's `in` does not. */
  lemma LikeIgnoresCase()
    ensures Like("Eggs", "egg") && !Contains("Eggs", "egg")
  {
    assert Lower("Eggs") == "eggs";
    assert Lower("egg") == "egg";
    assert "egg" <= "eggs";
    assert "Eggs"[0] == 'E' && "ggs"[0] == 'g' && "egg"[0] == 'e';
    assert !("egg" <= "Eggs") && !("egg" <= "ggs");
    assert !("egg" <= "gs") && !("egg" <= "s") && !("egg" <= "");
    assert "Eggs"[1..] == "ggs" && "ggs"[1..] == "gs" && "gs"[1..] == "s" && "s"[1..] == "";
  }

  // ---------------------------------------------------------------- rstrip

  /** Python's `s.rstrip(c)`: drops every trailing `c`. */
  function RStrip(s: string, c: char): (r: string)
    ensures r <= s
    ensures |r| == 0 || r[|r| - 1] != c
    ensures forall i :: |r| <= i < |s| ==> s[i] == c
  {
    if |s| > 0 && s[|s| - 1] == c then RStrip(s[..|s| - 1], c) else s
  }

  // ---------------------------------------------------------------- numbers

  predicate IsDigit(c: char)
  {
    '0' <= c <= '9'
  }

  function Digit(d: nat): (c: char)
    requires d < 10
    ensures IsDigit(c)
  {
    ('0' as int + d) as char
  }

  /** Python's `str(n)` for a natural number: decimal digits, no leading zero. */
  function NatToString(n: nat): (s: string)
    ensures |s| > 0
    ensures forall c :: c in s ==> IsDigit(c)
  {
    if n < 10 then [Digit(n)] else NatToString(n / 10) + [Digit(n % 10)]
  }

  /** Value of a string of decimal digits. */
  function DigitsValue(s: string): nat
    requires forall c :: c in s ==> IsDigit(c)
  {
    if |s| == 0 then 0
    else
      assert forall c :: c in s[..|s| - 1] ==> c in s;
      assert s[|s| - 1] in s && IsDigit(s[|s| - 1]);
      assert s[|s| - 1] as int >= '0' as int;
      10 * DigitsValue(s[..|s| - 1]) + (s[|s| - 1] as int - '0' as int)
  }

  /** Python's `int(s)` on strings of the shape this model produces: a non-empty
      run of decimal digits parses, anything else raises ValueError (None). */
  function ParseNat(s: string): Option<nat>
  {
    if |s| > 0 && forall c :: c in s ==> IsDigit(c) then Some(DigitsValue(s)) else None
  }

  /** `int(str(n)) == n`. */
  lemma {:induction false} ParseNatToString(n: nat)
    ensures ParseNat(NatToString(n)) == Some(n)
  {
    var s := NatToString(n);
    if n < 10 {
      assert s[..|s| - 1] == [];
    } else {
      ParseNatToString(n / 10);
      assert s[..|s| - 1] == NatToString(n / 10);
      assert s[|s| - 1] == Digit(n % 10);
    }
    assert DigitsValue(s) == n;
  }

  /** Distinct numbers have distinct decimal spellings. */
  lemma NatToStringInjective(a: nat, b: nat)
    requires NatToString(a) == NatToString(b)
    ensures a == b
  {
    ParseNatToString(a);
    ParseNatToString(b);
  }
}
