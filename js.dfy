/** JavaScript values and string built-ins that both userscripts rely on:
    null-able values, truthiness, `String.prototype.split` / `trim` / `includes`,
    number formatting in template strings and the shape of a `document.cookie` entry. */
module Js {

  /** A value that may be `null` (or absent). */
  datatype Option<T> = None | Some(value: T)

  /** Truthiness of a string that may be null: `null` and `''` are falsy. */
  predicate Truthy(s: Option<string>)
  {
    s.Some? && s.value != ""
  }

  /** Truthiness of a numeric id that may be null: `null` and `0` are falsy. */
  predicate TruthyId(n: Option<nat>)
  {
    n.Some? && n.value != 0
  }

  /** The concatenation of a sequence of sequences (`Array.prototype.flat`). */
  function Concat<T>(xss: seq<seq<T>>): seq<T>
  {
    if |xss| == 0 then [] else Concat(xss[..|xss| - 1]) + xss[|xss| - 1]
  }

  lemma {:induction false} ConcatAppend<T>(a: seq<seq<T>>, b: seq<seq<T>>)
    ensures Concat(a + b) == Concat(a) + Concat(b)
  {
    if |b| == 0 {
      assert a + b == a;
    } else {
      ConcatAppend(a, b[..|b| - 1]);
      assert (a + b)[..|a + b| - 1] == a + b[..|b| - 1];
    }
  }

  /** `[x].concat(rest).flat()`: the first piece followed by the rest. */
  lemma ConcatCons<T>(x: seq<T>, rest: seq<seq<T>>)
    ensures Concat([x] + rest) == x + Concat(rest)
  {
    ConcatAppend([x], rest);
    assert Concat([x]) == Concat([x][..0]) + x;
  }

  /** `s.split(sep)` for a one-character separator: the pieces between separators,
      always at least one (`''.split(',')` is `['']`). */
  function Split(s: string, sep: char): (parts: seq<string>)
    ensures |parts| >= 1
    ensures forall k :: 0 <= k < |parts| ==> sep !in parts[k]
  {
    if |s| == 0 then [""]
    else
      var rest := Split(s[1..], sep);
      if s[0] == sep then [""] + rest
      else [[s[0]] + rest[0]] + rest[1..]
  }

  /** `parts.join(sep)`. */
  function Join(parts: seq<string>, sep: char): string
  {
    if |parts| == 0 then ""
    else if |parts| == 1 then parts[0]
    else parts[0] + [sep] + Join(parts[1..], sep)
  }

  /** Joining the pieces of a split gives the string back. */
  lemma {:induction false} SplitJoin(s: string, sep: char)
    ensures Join(Split(s, sep), sep) == s
  {
    if |s| > 0 {
      SplitJoin(s[1..], sep);
      var rest := Split(s[1..], sep);
      if s[0] == sep {
        assert ([""] + rest)[1..] == rest;
        assert Join([""] + rest, sep) == "" + [sep] + Join(rest, sep);
        assert s == [s[0]] + s[1..];
      } else if |rest| == 1 {
        assert s == [s[0]] + s[1..];
      } else {
        var parts := [[s[0]] + rest[0]] + rest[1..];
        assert parts[1..] == rest[1..];
        assert Join(rest, sep) == rest[0] + [sep] + Join(rest[1..], sep);
        assert s == [s[0]] + s[1..];
      }
    }
  }

  lemma {:induction false} SplitWithoutSeparator(p: string, sep: char)
    requires sep !in p
    ensures Split(p, sep) == [p]
  {
    if |p| > 0 {
      SplitWithoutSeparator(p[1..], sep);
      assert p == [p[0]] + p[1..];
    }
  }

  lemma {:induction false} SplitAfterPiece(p: string, t: string, sep: char)
    requires sep !in p
    ensures Split(p + [sep] + t, sep) == [p] + Split(t, sep)
  {
    var s := p + [sep] + t;
    if |p| == 0 {
      assert s[1..] == t;
    } else {
      assert s[1..] == p[1..] + [sep] + t;
      SplitAfterPiece(p[1..], t, sep);
      assert p == [p[0]] + p[1..];
    }
  }

  /** Splitting a join of separator-free pieces gives the pieces back. */
  lemma {:induction false} JoinSplit(parts: seq<string>, sep: char)
    requires |parts| >= 1
    requires forall k :: 0 <= k < |parts| ==> sep !in parts[k]
    ensures Split(Join(parts, sep), sep) == parts
  {
    if |parts| == 1 {
      SplitWithoutSeparator(parts[0], sep);
    } else {
      JoinSplit(parts[1..], sep);
      SplitAfterPiece(parts[0], Join(parts[1..], sep), sep);
      assert parts == [parts[0]] + parts[1..];
    }
  }

  /** A joined list of at least two pieces starts with the first piece, the separator
      and the second piece. */
  lemma JoinStart(parts: seq<string>, sep: char)
    requires |parts| >= 2
    ensures var lead := parts[0] + [sep] + parts[1];
      |lead| <= |Join(parts, sep)| && Join(parts, sep)[..|lead|] == lead
  {
    var rest := parts[1..];
    if |rest| > 1 {
      assert Join(rest, sep) == rest[0] + [sep] + Join(rest[1..], sep);
    }
  }

  /** The characters `String.prototype.trim` strips: WhiteSpace and LineTerminator. */
  predicate IsSpace(c: char)
  {
    || c == '\t' || c == '\n' || c == '\U{000B}' || c == '\U{000C}' || c == '\r' || c == ' '
    || c == '\U{00A0}' || c == '\U{1680}' || ('\U{2000}' <= c <= '\U{200A}')
    || c == '\U{2028}' || c == '\U{2029}' || c == '\U{202F}' || c == '\U{205F}' || c == '\U{3000}'
    || c == '\U{FEFF}'
  }

  /** How many white-space characters `s` starts with. */
  function LeadingSpaces(s: string): (n: nat)
    ensures n <= |s|
    ensures forall k :: 0 <= k < n ==> IsSpace(s[k])
    ensures n < |s| ==> !IsSpace(s[n])
  {
    if |s| == 0 || !IsSpace(s[0]) then 0 else 1 + LeadingSpaces(s[1..])
  }

  /** How many white-space characters `s` ends with. */
  function TrailingSpaces(s: string): (n: nat)
    ensures n <= |s|
    ensures forall k :: |s| - n <= k < |s| ==> IsSpace(s[k])
    ensures n < |s| ==> !IsSpace(s[|s| - n - 1])
  {
    if |s| == 0 || !IsSpace(s[|s| - 1]) then 0 else 1 + TrailingSpaces(s[..|s| - 1])
  }

  /** `s.trim()`: `s` without its leading and trailing white space. */
  function Trim(s: string): (t: string)
    ensures LeadingSpaces(s) + |t| <= |s|
    ensures t == s[LeadingSpaces(s)..LeadingSpaces(s) + |t|]
    ensures forall k :: 0 <= k < LeadingSpaces(s) ==> IsSpace(s[k])
    ensures forall k :: LeadingSpaces(s) + |t| <= k < |s| ==> IsSpace(s[k])
    ensures |t| > 0 ==> !IsSpace(t[0]) && !IsSpace(t[|t| - 1])
  {
    var rest := s[LeadingSpaces(s)..];
    rest[..|rest| - TrailingSpaces(rest)]
  }

  /** `pat` occurs in `s` at index `i`. */
  predicate OccursAt(s: string, pat: string, i: int)
  {
    0 <= i && i + |pat| <= |s| && s[i..i + |pat|] == pat
  }

  /** `s.includes(pat)`. */
  predicate Includes(s: string, pat: string)
  {
    exists i | 0 <= i <= |s| - |pat| :: OccursAt(s, pat, i)
  }

  /** The decimal digit for `d`. */
  function Digit(d: nat): (c: char)
    requires d < 10
    ensures '0' <= c <= '9'
    ensures c as int - '0' as int == d
  {
    ('0' as int + d) as char
  }

  /** How a template string `${n}` renders a non-negative integer. */
  function NatToDecimal(n: nat): (s: string)
    ensures |s| >= 1
    ensures forall k :: 0 <= k < |s| ==> '0' <= s[k] <= '9'
    ensures n > 0 ==> s[0] != '0'
  {
    if n < 10 then [Digit(n)] else NatToDecimal(n / 10) + [Digit(n % 10)]
  }

  /** `s` consists of decimal digits only. */
  predicate AllDigits(s: string)
  {
    forall k :: 0 <= k < |s| ==> '0' <= s[k] <= '9'
  }

  /** The number a string of decimal digits denotes. */
  function DecimalValue(s: string): nat
    requires AllDigits(s)
  {
    if |s| == 0 then 0 else 10 * DecimalValue(s[..|s| - 1]) + (s[|s| - 1] as int - '0' as int)
  }

  /** Reading the rendered digits back gives the number. */
  lemma {:induction false} DecimalRoundTrip(n: nat)
    ensures DecimalValue(NatToDecimal(n)) == n
  {
    if n >= 10 {
      DecimalRoundTrip(n / 10);
      var s := NatToDecimal(n);
      assert s[..|s| - 1] == NatToDecimal(n / 10);
    }
  }

  /** The name of one `document.cookie` entry: the first piece of `entry.trim().split('=')`. */
  function CookieName(entry: string): (name: string)
    ensures '=' !in name
  {
    Split(Trim(entry), '=')[0]
  }

  /** The value of one `document.cookie` entry: the second piece of `entry.trim().split('=')`,
      so it stops at the next `=`; absent when the entry has no `=`. */
  function CookieValue(entry: string): (value: Option<string>)
    ensures value.Some? ==> '=' !in value.value
  {
    var d := Split(Trim(entry), '=');
    if |d| >= 2 then Some(d[1]) else None
  }

  /** An entry with a value is laid out as its name, `=` and its value, after trimming;
      one without a value is exactly its name. */
  lemma CookieLayout(entry: string)
    ensures CookieValue(entry).Some? ==>
      var lead := CookieName(entry) + "=" + CookieValue(entry).value;
      |lead| <= |Trim(entry)| && Trim(entry)[..|lead|] == lead
    ensures CookieValue(entry).None? ==> Trim(entry) == CookieName(entry)
  {
    var d := Split(Trim(entry), '=');
    SplitJoin(Trim(entry), '=');
    if |d| >= 2 {
      JoinStart(d, '=');
    }
  }

  /** Occurrence composes: `c` at `j` in `b`, and `b` at `i` in `a`, puts `c` at `i + j` in `a`. */
  lemma OccursWithin(a: string, b: string, c: string, i: int, j: int)
    requires OccursAt(a, b, i) && OccursAt(b, c, j)
    ensures OccursAt(a, c, i + j)
  {
    assert forall k | 0 <= k < |c| :: a[i + j + k] == b[j + k] == c[k];
  }

  /** Every piece of a join occurs in it. */
  lemma {:induction false} JoinPieceOccurs(parts: seq<string>, sep: char, k: nat) returns (i: nat)
    requires k < |parts|
    ensures OccursAt(Join(parts, sep), parts[k], i)
  {
    var s := Join(parts, sep);
    if |parts| == 1 {
      i := 0;
      assert s[0..|parts[0]|] == parts[0];
    } else {
      var rest := Join(parts[1..], sep);
      var lead := parts[0] + [sep];
      assert s == lead + rest;
      if k == 0 {
        i := 0;
        assert s[0..|parts[0]|] == parts[0];
      } else {
        var j := JoinPieceOccurs(parts[1..], sep, k - 1);
        assert OccursAt(s, rest, |lead|) by {
          assert s[|lead|..|lead| + |rest|] == rest;
        }
        OccursWithin(s, rest, parts[k], |lead|, j);
        i := |lead| + j;
      }
    }
  }

  /** The trimmed entry occurs in the entry, after its leading white space. */
  lemma TrimOccurs(s: string)
    ensures OccursAt(s, Trim(s), LeadingSpaces(s))
  {
    var t, l := Trim(s), LeadingSpaces(s);
    assert l + |t| <= |s| && s[l..l + |t|] == t;
  }

  /** The first piece of a split occurs in the string that was split. */
  lemma FirstPieceOccurs(t: string, sep: char) returns (i: nat)
    ensures OccursAt(t, Split(t, sep)[0], i)
  {
    SplitJoin(t, sep);
    i := JoinPieceOccurs(Split(t, sep), sep, 0);
  }

  /** The name of a cookie entry occurs in the entry. */
  lemma EntryNameOccurs(entry: string) returns (j: nat)
    ensures OccursAt(entry, CookieName(entry), j)
  {
    TrimOccurs(entry);
    var i := FirstPieceOccurs(Trim(entry), '=');
    OccursWithin(entry, Trim(entry), CookieName(entry), LeadingSpaces(entry), i);
    j := LeadingSpaces(entry) + i;
  }

  /** The name of every entry of `cookie.split(';')` occurs in `cookie`. */
  lemma CookieNameOccurs(cookie: string, k: nat) returns (i: nat)
    requires k < |Split(cookie, ';')|
    ensures OccursAt(cookie, CookieName(Split(cookie, ';')[k]), i)
  {
    SplitJoin(cookie, ';');
    var e := JoinPieceOccurs(Split(cookie, ';'), ';', k);
    i := NameWithin(cookie, Split(cookie, ';')[k], e);
  }

  /** Where an entry occurs, its name occurs too. */
  lemma NameWithin(s: string, entry: string, e: nat) returns (i: nat)
    requires OccursAt(s, entry, e)
    ensures OccursAt(s, CookieName(entry), i)
  {
    var j := EntryNameOccurs(entry);
    OccursWithin(s, entry, CookieName(entry), e, j);
    i := e + j;
  }

  /** A cookie string with an entry named `name` contains `name`. */
  lemma NamedEntryOccurs(cookie: string, name: string)
    requires exists k :: 0 <= k < |Split(cookie, ';')| && CookieName(Split(cookie, ';')[k]) == name
    ensures Includes(cookie, name)
  {
    var k :| 0 <= k < |Split(cookie, ';')| && CookieName(Split(cookie, ';')[k]) == name;
    var i := CookieNameOccurs(cookie, k);
  }

  /** The index of the first `c` in `s` at or after `i`. */
  function FirstIndexFrom(s: string, c: char, i: nat): (r: Option<nat>)
    requires i <= |s|
    ensures r.Some? ==> i <= r.value < |s| && s[r.value] == c
    ensures r.Some? ==> forall k :: i <= k < r.value ==> s[k] != c
    ensures r.None? ==> forall k :: i <= k < |s| ==> s[k] != c
    decreases |s| - i
  {
    if i == |s| then None
    else if s[i] == c then Some(i)
    else FirstIndexFrom(s, c, i + 1)
  }

  /** `decodeURIComponent(value)` of an entry; a missing value is `undefined`, which
      decodes to the string `"undefined"`. `decode` stands for `decodeURIComponent`. */
  function DecodedValue(entry: string, decode: string -> string): string
  {
    match CookieValue(entry)
    case Some(v) => decode(v)
    case None => decode("undefined")
  }
}
