/** Character classes and string rewriting used by the code derivations and
    the name search: the JavaScript `\s` class, `toUpperCase`/`toLowerCase`
    and `normalize("NFD")` followed by stripping combining marks, over a fixed
    table (ASCII letters and the Spanish accented letters), the
    `replace(/\s+/g, sep)` rewrite, `includes`, and the decimal rendering of a
    counter in a template string. */
module Text {

  /** The characters matched by `\s` in a JavaScript regular expression
      (ECMAScript WhiteSpace and LineTerminator). */
  predicate IsSpace(c: char) {
    || c == ' ' || c == '\t' || c == '\n' || c == '\U{B}' || c == '\U{C}' || c == '\r'
    || c == '\U{A0}' || c == '\U{1680}' || ('\U{2000}' <= c <= '\U{200A}')
    || c == '\U{2028}' || c == '\U{2029}' || c == '\U{202F}' || c == '\U{205F}'
    || c == '\U{3000}' || c == '\U{FEFF}'
  }

  predicate IsUpperLetter(c: char) {
    'A' <= c <= 'Z'
  }

  predicate HasSpace(s: string) {
    exists i :: 0 <= i < |s| && IsSpace(s[i])
  }

  /** Every character of `s` is whitespace. */
  predicate AllSpace(s: string) {
    forall i :: 0 <= i < |s| ==> IsSpace(s[i])
  }

  /** `toUpperCase` on one character, over the modelled table. */
  function ToUpper(c: char): (u: char)
    ensures IsSpace(u) <==> IsSpace(c)
    ensures !('a' <= u <= 'z')
  {
    if 'a' <= c <= 'z' then (c as int - 'a' as int + 'A' as int) as char
    else match c
      case 'á' => 'Á'
      case 'é' => 'É'
      case 'í' => 'Í'
      case 'ó' => 'Ó'
      case 'ú' => 'Ú'
      case 'ü' => 'Ü'
      case 'ñ' => 'Ñ'
      case _ => c
  }

  /** `toLowerCase` on one character, over the modelled table. */
  function ToLower(c: char): (l: char)
    ensures IsSpace(l) <==> IsSpace(c)
    ensures !IsUpperLetter(l)
  {
    if 'A' <= c <= 'Z' then (c as int - 'A' as int + 'a' as int) as char
    else match c
      case 'Á' => 'á'
      case 'É' => 'é'
      case 'Í' => 'í'
      case 'Ó' => 'ó'
      case 'Ú' => 'ú'
      case 'Ü' => 'ü'
      case 'Ñ' => 'ñ'
      case _ => c
  }

  /** `normalize("NFD")` followed by removing the combining marks
      U+0300..U+036F, for an upper-case character of the table. */
  function StripAccent(c: char): (r: char)
    ensures IsSpace(r) <==> IsSpace(c)
    ensures IsUpperLetter(c) ==> r == c
    ensures c in "ÁÉÍÓÚÜÑ" ==> IsUpperLetter(r)
  {
    match c
      case 'Á' => 'A'
      case 'É' => 'E'
      case 'Í' => 'I'
      case 'Ó' => 'O'
      case 'Ú' => 'U'
      case 'Ü' => 'U'
      case 'Ñ' => 'N'
      case _ => c
  }

  function Upper(s: string): (r: string)
    ensures |r| == |s| && forall i :: 0 <= i < |s| ==> r[i] == ToUpper(s[i])
  {
    seq(|s|, i requires 0 <= i < |s| => ToUpper(s[i]))
  }

  function Lower(s: string): (r: string)
    ensures |r| == |s| && forall i :: 0 <= i < |s| ==> r[i] == ToLower(s[i])
  {
    seq(|s|, i requires 0 <= i < |s| => ToLower(s[i]))
  }

  /** `hay.includes(needle)`: `needle` occurs in `hay` at some position. */
  predicate Contains(hay: string, needle: string)
    ensures Contains(hay, needle) <==> exists i :: 0 <= i <= |hay| && needle <= hay[i..]
    decreases |hay|
  {
    if needle <= hay then
      assert hay[0..] == hay;
      true
    else if hay == [] then false
    else
      ContainsShift(hay, needle);
      Contains(hay[1..], needle)
  }

  /** The positions of `hay[1..]` are those of `hay` shifted by one. */
  lemma ContainsShift(hay: string, needle: string)
    requires hay != []
    ensures (exists i :: 0 <= i <= |hay| - 1 && needle <= hay[1..][i..])
        ==> (exists i :: 0 <= i <= |hay| && needle <= hay[i..])
    ensures !(needle <= hay) && (exists i :: 0 <= i <= |hay| && needle <= hay[i..])
        ==> (exists i :: 0 <= i <= |hay| - 1 && needle <= hay[1..][i..])
  {
    if exists i :: 0 <= i <= |hay| - 1 && needle <= hay[1..][i..] {
      var i :| 0 <= i <= |hay| - 1 && needle <= hay[1..][i..];
      assert hay[1..][i..] == hay[i + 1..];
    }
    if !(needle <= hay) && exists i :: 0 <= i <= |hay| && needle <= hay[i..] {
      var i :| 0 <= i <= |hay| && needle <= hay[i..];
      assert i != 0;
      assert hay[1..][i - 1..] == hay[i..];
    }
  }

  /** The longest suffix of `s` that does not start with whitespace. */
  function DropSpaces(s: string): (r: string)
    ensures |r| <= |s| && r == s[|s| - |r|..]
    ensures r == [] || !IsSpace(r[0])
    ensures forall i :: 0 <= i < |s| - |r| ==> IsSpace(s[i])
  {
    if s != [] && IsSpace(s[0]) then DropSpaces(s[1..]) else s
  }

  /** `s.replace(/\s+/g, sep)`: every maximal run of whitespace becomes one `sep`. */
  function ReplaceSpaceRuns(s: string, sep: char): (r: string)
    decreases |s|
  {
    if s == [] then []
    else if IsSpace(s[0]) then [sep] + ReplaceSpaceRuns(DropSpaces(s[1..]), sep)
    else [s[0]] + ReplaceSpaceRuns(s[1..], sep)
  }

  /** `s` with every whitespace character removed. */
  function RemoveSpaces(s: string): string {
    if s == [] then []
    else if IsSpace(s[0]) then RemoveSpaces(s[1..])
    else [s[0]] + RemoveSpaces(s[1..])
  }

  /** `s` with every occurrence of `c` removed. */
  function RemoveChar(s: string, c: char): string {
    if s == [] then []
    else if s[0] == c then RemoveChar(s[1..], c)
    else [s[0]] + RemoveChar(s[1..], c)
  }

  /** Every character of the rewritten string is `sep` or a non-whitespace
      character of the input; it is never longer than the input. */
  lemma {:induction false} ReplaceSpaceRunsChars(s: string, sep: char)
    ensures |ReplaceSpaceRuns(s, sep)| <= |s|
    ensures forall c :: c in ReplaceSpaceRuns(s, sep) ==> c == sep || (c in s && !IsSpace(c))
    decreases |s|
  {
    if s == [] {
    } else if IsSpace(s[0]) {
      var t := DropSpaces(s[1..]);
      ReplaceSpaceRunsChars(t, sep);
      forall c | c in t ensures c in s {
        var i :| 0 <= i < |t| && t[i] == c;
        assert s[|s| - |t| + i] == c;
      }
    } else {
      ReplaceSpaceRunsChars(s[1..], sep);
    }
  }

  /** A non-empty input that does not start with whitespace keeps its first character. */
  lemma ReplaceSpaceRunsHead(s: string, sep: char)
    requires s != [] && !IsSpace(s[0])
    ensures ReplaceSpaceRuns(s, sep) != [] && ReplaceSpaceRuns(s, sep)[0] == s[0]
  {
  }

  /** No two adjacent characters of `s` are both `sep`. */
  predicate NoDoubleSep(s: string, sep: char) {
    forall i :: 0 <= i < |s| - 1 && s[i] == sep ==> s[i + 1] != sep
  }

  /** When `sep` does not occur in the input, no two separators are adjacent
      in the output: each one stands for a whole whitespace run. */
  lemma {:induction false} ReplaceSpaceRunsNoDoubleSep(s: string, sep: char)
    requires sep !in s
    ensures NoDoubleSep(ReplaceSpaceRuns(s, sep), sep)
    decreases |s|
  {
    var r := ReplaceSpaceRuns(s, sep);
    if s == [] {
    } else if IsSpace(s[0]) {
      var t := DropSpaces(s[1..]);
      forall i | 0 <= i < |t| ensures t[i] != sep {
        assert t[i] == s[|s| - |t| + i];
      }
      ReplaceSpaceRunsNoDoubleSep(t, sep);
      var rest := ReplaceSpaceRuns(t, sep);
      assert r == [sep] + rest;
      if t != [] {
        ReplaceSpaceRunsHead(t, sep);
      }
      forall i | 0 <= i < |r| - 1 && r[i] == sep ensures r[i + 1] != sep {
        if i > 0 {
          assert r[i] == rest[i - 1] && r[i + 1] == rest[i];
        }
      }
    } else {
      forall i | 0 <= i < |s| - 1 ensures s[1..][i] != sep {
        assert s[1..][i] == s[i + 1];
      }
      ReplaceSpaceRunsNoDoubleSep(s[1..], sep);
      var rest := ReplaceSpaceRuns(s[1..], sep);
      assert r == [s[0]] + rest;
      assert s[0] in s;
      forall i | 0 <= i < |r| - 1 && r[i] == sep ensures r[i + 1] != sep {
        if i > 0 {
          assert r[i] == rest[i - 1] && r[i + 1] == rest[i];
        }
      }
    }
  }

  lemma {:induction false} RemoveSpacesOfDropped(s: string)
    ensures RemoveSpaces(DropSpaces(s)) == RemoveSpaces(s)
    decreases |s|
  {
    if s != [] && IsSpace(s[0]) {
      RemoveSpacesOfDropped(s[1..]);
    }
  }

  /** Removing `c` from a string with a known head. */
  lemma RemoveCharCons(h: char, t: string, c: char)
    ensures RemoveChar([h] + t, c) == if h == c then RemoveChar(t, c) else [h] + RemoveChar(t, c)
  {
    assert ([h] + t)[1..] == t;
  }

  /** A suffix of a string holds no character the string does not hold. */
  lemma NotInSuffix(s: string, k: nat, sep: char)
    requires k <= |s| && sep !in s
    ensures sep !in s[k..]
  {
    forall i | 0 <= i < |s| - k ensures s[k..][i] != sep {
      assert s[k..][i] == s[k + i];
    }
  }

  /** When `sep` is not in the input, deleting the separators from the output
      gives back the input's non-whitespace text, in order. */
  lemma {:induction false} ReplaceSpaceRunsKeepsText(s: string, sep: char)
    requires sep !in s
    ensures RemoveChar(ReplaceSpaceRuns(s, sep), sep) == RemoveSpaces(s)
    decreases |s|
  {
    if s == [] {
    } else if IsSpace(s[0]) {
      var t := DropSpaces(s[1..]);
      NotInSuffix(s, |s| - |t|, sep);
      ReplaceSpaceRunsKeepsText(t, sep);
      RemoveSpacesOfDropped(s[1..]);
      RemoveCharCons(sep, ReplaceSpaceRuns(t, sep), sep);
    } else {
      NotInSuffix(s, 1, sep);
      ReplaceSpaceRunsKeepsText(s[1..], sep);
      RemoveCharCons(s[0], ReplaceSpaceRuns(s[1..], sep), sep);
    }
  }

  /** Skipping the whitespace of `w + b`, where `w` is all whitespace and `b`
      does not start with it, leaves `b`. */
  lemma {:induction false} DropSpacesOfRun(w: string, b: string)
    requires AllSpace(w)
    requires b == [] || !IsSpace(b[0])
    ensures DropSpaces(w + b) == b
    decreases |w|
  {
    if w == [] {
      assert w + b == b;
    } else {
      assert (w + b)[0] == w[0];
      assert (w + b)[1..] == w[1..] + b;
      assert AllSpace(w[1..]) by {
        forall i | 0 <= i < |w| - 1 ensures IsSpace(w[1..][i]) {
          assert w[1..][i] == w[i + 1];
        }
      }
      DropSpacesOfRun(w[1..], b);
    }
  }

  /** Where the separator goes: a whitespace run `w` between a word `a`
      without whitespace and a rest `b` that does not start with whitespace
      becomes one `sep` in its place. With `ReplaceSpaceRunsIdentity` this
      determines the rewrite on every input. */
  lemma {:induction false} ReplaceSpaceRunsSplit(a: string, w: string, b: string, sep: char)
    requires !HasSpace(a)
    requires w != [] && AllSpace(w)
    requires b == [] || !IsSpace(b[0])
    ensures ReplaceSpaceRuns(a + w + b, sep) == a + [sep] + ReplaceSpaceRuns(b, sep)
    decreases |a|
  {
    if a == [] {
      assert a + w + b == w + b;
      assert (w + b)[0] == w[0];
      assert (w + b)[1..] == w[1..] + b;
      assert AllSpace(w[1..]) by {
        forall i | 0 <= i < |w| - 1 ensures IsSpace(w[1..][i]) {
          assert w[1..][i] == w[i + 1];
        }
      }
      DropSpacesOfRun(w[1..], b);
    } else {
      assert !IsSpace(a[0]);
      assert (a + w + b)[0] == a[0];
      assert (a + w + b)[1..] == a[1..] + w + b;
      assert !HasSpace(a[1..]) by {
        forall i | 0 <= i < |a| - 1 ensures !IsSpace(a[1..][i]) {
          assert a[1..][i] == a[i + 1];
        }
      }
      ReplaceSpaceRunsSplit(a[1..], w, b, sep);
      assert a + [sep] + ReplaceSpaceRuns(b, sep) == [a[0]] + (a[1..] + [sep] + ReplaceSpaceRuns(b, sep));
    }
  }

  /** `toUpperCase` of a concatenation. */
  lemma UpperAppend(a: string, b: string)
    ensures Upper(a + b) == Upper(a) + Upper(b)
  {
    assert forall i :: 0 <= i < |a + b| ==> Upper(a + b)[i] == (Upper(a) + Upper(b))[i];
  }

  /** An input without whitespace is left as it is. */
  lemma {:induction false} ReplaceSpaceRunsIdentity(s: string, sep: char)
    requires !HasSpace(s)
    ensures ReplaceSpaceRuns(s, sep) == s
    decreases |s|
  {
    if s != [] {
      assert !IsSpace(s[0]);
      forall i | 0 <= i < |s| - 1 ensures !IsSpace(s[1..][i]) {
        assert s[1..][i] == s[i + 1];
      }
      ReplaceSpaceRunsIdentity(s[1..], sep);
    }
  }

  // Decimal rendering of a counter, as `${counter}` produces it.

  predicate IsDigit(c: char) {
    '0' <= c <= '9'
  }

  function Digit(d: nat): (c: char)
    requires d < 10
    ensures IsDigit(c)
  {
    (d + '0' as int) as char
  }

  function DigitValue(c: char): (d: nat)
    requires IsDigit(c)
    ensures d < 10 && Digit(d) == c
  {
    c as int - '0' as int
  }

  /** The decimal numeral of `n`, without leading zeros. */
  function Decimal(n: nat): (s: string)
    ensures s != [] && forall i :: 0 <= i < |s| ==> IsDigit(s[i])
    decreases n
  {
    if n < 10 then [Digit(n)] else Decimal(n / 10) + [Digit(n % 10)]
  }

  /** The value of a numeral: the inverse of `Decimal`. */
  function ParseDecimal(s: string): nat
    requires forall i :: 0 <= i < |s| ==> IsDigit(s[i])
    decreases |s|
  {
    if s == [] then 0 else ParseDecimal(s[..|s| - 1]) * 10 + DigitValue(s[|s| - 1])
  }

  lemma {:induction false} ParseDecimalOfDecimal(n: nat)
    ensures ParseDecimal(Decimal(n)) == n
    decreases n
  {
    var s := Decimal(n);
    if n < 10 {
      assert s[..|s| - 1] == [];
    } else {
      assert s[..|s| - 1] == Decimal(n / 10);
      ParseDecimalOfDecimal(n / 10);
    }
  }

  /** Distinct counters render as distinct numerals. */
  lemma DecimalInjective(j: nat, k: nat)
    requires Decimal(j) == Decimal(k)
    ensures j == k
  {
    ParseDecimalOfDecimal(j);
    ParseDecimalOfDecimal(k);
  }
}
