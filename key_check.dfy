/**
 * The escape-password check `is_valid_key` of prison_game.c.
 *
 * The routine's meaning is given by functions: `CString` is what the C code sees of
 * its buffer (everything before the first NUL), `Clean` is the hyphen-free, upper-cased
 * copy (or None once a character other than a hyphen or an alphanumeric appears), and
 * three checksum rules decide the rest. `CheckKey` is the routine's own loops over a
 * `clean` buffer, proved to compute `IsValidKey`.
 *
 * `NoKeyIsValid` shows that the three rules can never hold together: no password
 * opens the prison.
 */
module KeyCheck {
  import opened Wrappers

  /** Number of characters the cleaned key must have. */
  const KEY_LENGTH := 16

  /** `isalnum` in the C locale. */
  predicate IsAlnum(c: char) {
    '0' <= c <= '9' || 'A' <= c <= 'Z' || 'a' <= c <= 'z'
  }

  /** `isdigit` in the C locale. */
  predicate IsDigit(c: char)
    ensures IsDigit(c) ==> IsAlnum(c)
  {
    '0' <= c <= '9'
  }

  /** A character that can stand in the cleaned key: a digit or an upper-case letter. */
  predicate IsKeyChar(c: char) {
    '0' <= c <= '9' || 'A' <= c <= 'Z'
  }

  /** A character that makes the whole key invalid: neither a hyphen nor alphanumeric. */
  predicate IsForeign(c: char) {
    c != '-' && !IsAlnum(c)
  }

  /** `toupper` in the C locale: it keeps hyphens, foreign characters and
      alphanumerics apart, and maps every alphanumeric to a key character. */
  function ToUpper(c: char): (u: char)
    ensures IsAlnum(u) <==> IsAlnum(c)
    ensures IsForeign(u) <==> IsForeign(c)
    ensures IsAlnum(c) ==> IsKeyChar(u)
  {
    if 'a' <= c <= 'z' then (c as int - 32) as char else c
  }

  /** The characters a C routine sees of a buffer: those before the first NUL. */
  function CString(buf: string): (s: string)
    ensures |s| <= |buf| && s == buf[..|s|]
    ensures forall k :: 0 <= k < |s| ==> s[k] != '\0'
    ensures |s| < |buf| ==> buf[|s|] == '\0'
  {
    if |buf| == 0 || buf[0] == '\0' then [] else [buf[0]] + CString(buf[1..])
  }

  /** The cleaning pass of `is_valid_key`: hyphens are skipped, alphanumerics are
      upper-cased and kept in order, and any other character rejects the key. */
  function Clean(s: string): (r: Option<string>)
    ensures r.Some? ==> |r.value| <= |s|
    ensures r.Some? ==> forall k :: 0 <= k < |r.value| ==> IsKeyChar(r.value[k])
  {
    if s == [] then Some([])
    else
      var c := s[|s| - 1];
      match Clean(s[..|s| - 1])
      case None => None
      case Some(t) =>
        if c == '-' then Some(t)
        else if IsAlnum(c) then Some(t + [ToUpper(c)])
        else None
  }

  // ----- An independent description of Clean -----

  predicate HasForeign(s: string) {
    exists k :: 0 <= k < |s| && IsForeign(s[k])
  }

  function WithoutHyphens(s: string): (r: string)
  {
    if s == [] then []
    else if s[|s| - 1] == '-' then WithoutHyphens(s[..|s| - 1])
    else WithoutHyphens(s[..|s| - 1]) + [s[|s| - 1]]
  }

  function UpperAll(s: string): (r: string)
    ensures |r| == |s|
  {
    seq(|s|, k requires 0 <= k < |s| => ToUpper(s[k]))
  }

  /** Clean rejects exactly the strings holding a foreign character; otherwise it
      yields the upper-cased string with its hyphens removed. */
  lemma {:induction false} CleanClosedForm(s: string)
    ensures Clean(s) == if HasForeign(s) then None else Some(UpperAll(WithoutHyphens(s)))
  {
    if s != [] {
      var p, c := s[..|s| - 1], s[|s| - 1];
      CleanClosedForm(p);
      assert s == p + [c];
      assert HasForeign(s) <==> HasForeign(p) || IsForeign(c) by {
        if IsForeign(c) {
          assert IsForeign(s[|p|]);
        }
        if HasForeign(s) && !IsForeign(c) {
          var k :| 0 <= k < |s| && IsForeign(s[k]);
          assert k < |p| && p[k] == s[k];
        }
        if HasForeign(p) {
          var k :| 0 <= k < |p| && IsForeign(p[k]);
          assert s[k] == p[k];
        }
      }
      if !HasForeign(s) && c != '-' {
        var w := WithoutHyphens(p);
        assert UpperAll(w + [c]) == UpperAll(w) + [ToUpper(c)];
      }
    }
  }

  lemma {:induction false} WithoutHyphensKeepsForeign(s: string)
    ensures HasForeign(WithoutHyphens(s)) <==> HasForeign(s)
    ensures WithoutHyphens(WithoutHyphens(s)) == WithoutHyphens(s)
  {
    if s != [] {
      var p, c := s[..|s| - 1], s[|s| - 1];
      WithoutHyphensKeepsForeign(p);
      var w := WithoutHyphens(p);
      assert HasForeign(s) <==> HasForeign(p) || IsForeign(c) by {
        if IsForeign(c) {
          assert IsForeign(s[|p|]);
        }
        if HasForeign(s) && !IsForeign(c) {
          var k :| 0 <= k < |s| && IsForeign(s[k]);
          assert k < |p| && p[k] == s[k];
        }
        if HasForeign(p) {
          var k :| 0 <= k < |p| && IsForeign(p[k]);
          assert s[k] == p[k];
        }
      }
      if c != '-' {
        var wc := w + [c];
        assert wc[..|wc| - 1] == w;
        assert HasForeign(wc) <==> HasForeign(w) || IsForeign(c) by {
          if IsForeign(c) {
            assert IsForeign(wc[|w|]);
          }
          if HasForeign(wc) && !IsForeign(c) {
            var k :| 0 <= k < |wc| && IsForeign(wc[k]);
            assert k < |w| && w[k] == wc[k];
          }
          if HasForeign(w) {
            var k :| 0 <= k < |w| && IsForeign(w[k]);
            assert wc[k] == w[k];
          }
        }
      }
    }
  }

  lemma {:induction false} UpperAllCommutes(s: string)
    ensures WithoutHyphens(UpperAll(s)) == UpperAll(WithoutHyphens(s))
  {
    if s != [] {
      var p, c := s[..|s| - 1], s[|s| - 1];
      UpperAllCommutes(p);
      var u := UpperAll(s);
      assert u[..|u| - 1] == UpperAll(p);
      assert u[|u| - 1] == ToUpper(c);
      if c != '-' {
        var w := WithoutHyphens(p);
        assert UpperAll(w + [c]) == UpperAll(w) + [ToUpper(c)];
      }
    }
  }

  /** `is_valid_key` skips hyphens: removing them all cleans to the same result. */
  lemma CleanIgnoresHyphens(s: string)
    ensures Clean(WithoutHyphens(s)) == Clean(s)
  {
    CleanClosedForm(s);
    CleanClosedForm(WithoutHyphens(s));
    WithoutHyphensKeepsForeign(s);
  }

  lemma {:induction false} WithoutHyphensAppend(a: string, b: string)
    ensures WithoutHyphens(a + b) == WithoutHyphens(a) + WithoutHyphens(b)
  {
    if b == [] {
      assert a + b == a;
    } else {
      var q := b[..|b| - 1];
      assert a + b == (a + q) + [b[|b| - 1]];
      assert (a + b)[..|a + b| - 1] == a + q;
      WithoutHyphensAppend(a, q);
    }
  }

  lemma {:induction false} NoHyphensUnchanged(s: string)
    requires '-' !in s
    ensures WithoutHyphens(s) == s
  {
    if s != [] {
      var p := s[..|s| - 1];
      assert s == p + [s[|s| - 1]];
      NoHyphensUnchanged(p);
    }
  }

  /** A hyphen anywhere in the key is skipped. */
  lemma CleanIgnoresHyphenAt(a: string, b: string)
    ensures Clean(a + "-" + b) == Clean(a + b)
  {
    CleanIgnoresHyphens(a + "-" + b);
    CleanIgnoresHyphens(a + b);
    WithoutHyphensAppend(a + "-", b);
    WithoutHyphensAppend(a, "-");
    WithoutHyphensAppend(a, b);
    assert WithoutHyphens("-") == [] by {
      assert "-"[..0] == [];
    }
  }

  /** `is_valid_key` ignores letter case: two keys equal up to case clean alike. */
  lemma CleanIgnoresCase(s: string, t: string)
    requires UpperAll(s) == UpperAll(t)
    ensures Clean(s) == Clean(t)
  {
    CleanClosedForm(s);
    CleanClosedForm(t);
    assert HasForeign(s) <==> HasForeign(UpperAll(s)) by {
      if HasForeign(s) {
        var k :| 0 <= k < |s| && IsForeign(s[k]);
        assert IsForeign(UpperAll(s)[k]);
      }
      if HasForeign(UpperAll(s)) {
        var k :| 0 <= k < |s| && IsForeign(UpperAll(s)[k]);
        assert IsForeign(s[k]);
      }
    }
    assert HasForeign(t) <==> HasForeign(UpperAll(t)) by {
      if HasForeign(t) {
        var k :| 0 <= k < |t| && IsForeign(t[k]);
        assert IsForeign(UpperAll(t)[k]);
      }
      if HasForeign(UpperAll(t)) {
        var k :| 0 <= k < |t| && IsForeign(UpperAll(t)[k]);
        assert IsForeign(t[k]);
      }
    }
    UpperAllCommutes(s);
    UpperAllCommutes(t);
  }

  /** Any character other than a hyphen or an alphanumeric rejects the key, and
      only such a character makes the cleaning pass fail. */
  lemma CleanRejectsForeign(s: string)
    ensures Clean(s).None? <==> HasForeign(s)
    ensures Clean(s).Some? ==> |Clean(s).value| == |WithoutHyphens(s)|
  {
    CleanClosedForm(s);
  }

  /** Cleaning a longer buffer never fails less and never yields fewer characters. */
  lemma {:induction false} CleanPrefix(s: string, i: nat)
    requires i <= |s|
    ensures Clean(s[..i]).None? ==> Clean(s).None?
    ensures Clean(s[..i]).Some? && Clean(s).Some? ==> |Clean(s[..i]).value| <= |Clean(s).value|
    decreases |s| - i
  {
    if i < |s| {
      var p := s[..|s| - 1];
      assert p[..i] == s[..i];
      CleanPrefix(p, i);
    } else {
      assert s[..i] == s;
    }
  }

  // ----- The three checksum rules -----

  /** C's `^` on two 7-bit character codes. */
  function Xor(a: int, b: int): (r: int)
    requires 0 <= a < 128 && 0 <= b < 128
    ensures 0 <= r < 128
  {
    ((a as bv8) ^ (b as bv8)) as int
  }

  /** Sum of the codes of c[lo..hi]. */
  function Sum(c: string, lo: nat, hi: nat): (r: int)
    requires lo <= hi <= |c|
    ensures r >= 0
  {
    if hi == lo then 0 else Sum(c, lo, hi - 1) + c[hi - 1] as int
  }

  /** XOR of the codes of c[lo..hi], all of them ASCII. */
  function XorOf(c: string, lo: nat, hi: nat): (r: int)
    requires lo <= hi <= |c|
    requires forall k :: lo <= k < hi ==> c[k] as int < 128
    ensures 0 <= r < 128
  {
    if hi == lo then 0 else Xor(XorOf(c, lo, hi - 1), c[hi - 1] as int)
  }

  /** Number of digits in c[lo..hi]. */
  function DigitCount(c: string, lo: nat, hi: nat): (r: int)
    requires lo <= hi <= |c|
    ensures 0 <= r <= hi - lo
  {
    if hi == lo then 0 else DigitCount(c, lo, hi - 1) + (if IsDigit(c[hi - 1]) then 1 else 0)
  }

  predicate IsCleanKey(c: string) {
    |c| == KEY_LENGTH && forall k :: 0 <= k < |c| ==> IsKeyChar(c[k])
  }

  /** Rule (a): the codes of characters 0..3 add up to the XOR of characters 4..7. */
  predicate SumMatchesXor(c: string)
    requires IsCleanKey(c)
  {
    Sum(c, 0, 4) == XorOf(c, 4, 8)
  }

  /** Rule (b): the codes of characters 4..7 add up to 3 modulo 7. The sum is
      positive, so C's `%` and Dafny's agree. */
  predicate SumModSeven(c: string)
    requires IsCleanKey(c)
  {
    Sum(c, 4, 8) % 7 == 3
  }

  /** Rule (c): exactly one of characters 12..15 is a digit. */
  predicate OneDigitAtEnd(c: string)
    requires IsCleanKey(c)
  {
    DigitCount(c, 12, 16) == 1
  }

  /** What `is_valid_key` returns 1 for. */
  predicate IsValidKey(buf: string)
    ensures IsValidKey(buf) ==> |buf| >= KEY_LENGTH
  {
    match Clean(CString(buf))
    case None => false
    case Some(c) => |c| == KEY_LENGTH && SumMatchesXor(c) && SumModSeven(c) && OneDigitAtEnd(c)
  }

  /** Every key character has a code of at least that of '0'. */
  lemma {:induction false} SumAtLeast(c: string, lo: nat, hi: nat)
    requires lo <= hi <= |c|
    requires forall k :: lo <= k < hi ==> IsKeyChar(c[k])
    ensures Sum(c, lo, hi) >= ('0' as int) * (hi - lo)
  {
    if hi > lo {
      SumAtLeast(c, lo, hi - 1);
    }
  }

  /** Rule (a) never holds: four key characters add up to at least 192, while the
      XOR of four ASCII codes stays below 128. So `is_valid_key` accepts nothing. */
  lemma NoKeyIsValid(buf: string)
    ensures !IsValidKey(buf)
  {
    match Clean(CString(buf))
    case None =>
    case Some(c) =>
      if |c| == KEY_LENGTH {
        SumAtLeast(c, 0, 4);
      }
  }

  /** A buffer without a NUL is seen whole. */
  lemma {:induction false} CStringWhole(buf: string)
    requires '\0' !in buf
    ensures CString(buf) == buf
  {
    if buf != [] {
      CStringWhole(buf[1..]);
    }
  }

  /** A buffer of alphanumerics alone is seen whole and cleaned to its upper-case form. */
  lemma CleanOfPlainKey(key: string)
    requires forall k :: 0 <= k < |key| ==> IsAlnum(key[k])
    ensures Clean(CString(key)) == Some(UpperAll(key))
  {
    CStringWhole(key);
    NoHyphensUnchanged(key);
    CleanClosedForm(key);
  }

  /** "aaaaaaacaaaaaaa1" cleans to sixteen key characters. */
  lemma ExampleKeyCleans(key: string)
    requires key == "aaaaaaacaaaaaaa1"
    ensures Clean(CString(key)) == Some("AAAAAAACAAAAAAA1")
  {
    CleanOfPlainKey(key);
    assert UpperAll(key) == "AAAAAAACAAAAAAA1";
  }

  /** Rules (b) and (c) can be met, and rule (a) alone then rejects the key:
      for "AAAAAAACAAAAAAA1" it compares 260 with A^A^A^C = 2. */
  lemma ExampleKeyFailsOnlyRuleA()
    ensures IsCleanKey("AAAAAAACAAAAAAA1")
    ensures SumModSeven("AAAAAAACAAAAAAA1") && OneDigitAtEnd("AAAAAAACAAAAAAA1")
    ensures !SumMatchesXor("AAAAAAACAAAAAAA1")
  {
    var c := "AAAAAAACAAAAAAA1";
    assert Sum(c, 4, 8) == 262;
    assert DigitCount(c, 12, 16) == 1;
    assert Sum(c, 0, 4) == 260;
  }

  /** The first loop of `is_valid_key`: copies the key's alphanumerics, upper-cased, into
      the 17-character `clean` buffer and NUL-terminates them. It gives up (ok false)
      on a foreign character or once a seventeenth character has been stored. */
  method CleanPass(key: string) returns (clean: array<char>, j: nat, ok: bool)
    ensures fresh(clean) && clean.Length == KEY_LENGTH + 1
    ensures ok ==> j <= KEY_LENGTH && clean[j] == '\0' && Clean(CString(key)) == Some(clean[..j])
    ensures !ok ==> Clean(CString(key)).None? || |Clean(CString(key)).value| > KEY_LENGTH
  {
    ghost var s := CString(key);
    clean := new char[KEY_LENGTH + 1];
    j := 0;
    var i := 0;
    while i < |key| && key[i] != '\0'
      invariant i <= |s| && key[..i] == s[..i]
      invariant 0 <= j <= KEY_LENGTH
      invariant Clean(s[..i]) == Some(clean[..j])
    {
      assert s[..i + 1][..i] == s[..i];
      if key[i] != '-' {
        if !IsAlnum(key[i]) {
          CleanPrefix(s, i + 1);
          return clean, j, false;
        }
        ghost var t := clean[..j];
        clean[j] := ToUpper(key[i]);
        j := j + 1;
        assert clean[..j] == t + [ToUpper(s[i])];
        if j > KEY_LENGTH {
          CleanPrefix(s, i + 1);
          return clean, j, false;
        }
      }
      i := i + 1;
    }
    assert s[..i] == s;
    clean[j] := '\0';
    ok := true;
  }

  /** The checksum loops of `is_valid_key` over a cleaned key held in `clean[..16]`. */
  method ChecksumPass(clean: array<char>) returns (ok: bool)
    requires clean.Length >= KEY_LENGTH && IsCleanKey(clean[..KEY_LENGTH])
    ensures ok == (SumMatchesXor(clean[..KEY_LENGTH]) && SumModSeven(clean[..KEY_LENGTH])
                   && OneDigitAtEnd(clean[..KEY_LENGTH]))
  {
    ghost var c := clean[..KEY_LENGTH];
    var asciiSum := 0;
    var k := 0;
    while k < 4
      invariant 0 <= k <= 4 && asciiSum == Sum(c, 0, k)
    {
      asciiSum := asciiSum + clean[k] as int;
      k := k + 1;
    }
    var xorSum := 0;
    k := 4;
    while k < 8
      invariant 4 <= k <= 8 && xorSum == XorOf(c, 4, k)
    {
      xorSum := Xor(xorSum, clean[k] as int);
      k := k + 1;
    }
    if asciiSum != xorSum {
      return false;
    }
    var modSum := 0;
    k := 4;
    while k < 8
      invariant 4 <= k <= 8 && modSum == Sum(c, 4, k)
    {
      modSum := modSum + clean[k] as int;
      k := k + 1;
    }
    if modSum % 7 != 3 {
      return false;
    }
    var digitCount := 0;
    k := 12;
    while k < 16
      invariant 12 <= k <= 16 && digitCount == DigitCount(c, 12, k)
    {
      if IsDigit(clean[k]) {
        digitCount := digitCount + 1;
      }
      k := k + 1;
    }
    return digitCount == 1;
  }

  /** `is_valid_key`: the cleaning loop, the `strlen` length check, then the checksums. */
  method CheckKey(key: string) returns (valid: bool)
    ensures valid == IsValidKey(key)
  {
    var clean, j, ok := CleanPass(key);
    if !ok {
      return false;
    }
    var len := 0;
    while clean[len] != '\0'
      invariant 0 <= len <= j
      invariant forall k :: 0 <= k < len ==> clean[k] != '\0'
      decreases j - len
    {
      len := len + 1;
    }
    if len != KEY_LENGTH {
      return false;
    }
    valid := ChecksumPass(clean);
  }
}
