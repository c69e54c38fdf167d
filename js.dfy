/**
  The parts of JavaScript's value and string semantics that the client and server
  code rely on: values and objects, truthiness, the `\s` character class, the
  trimming regular expression and `String.prototype.split`.
*/
module Js {
  import opened Common

  /** A JavaScript value; `undefined` is a key missing from an object. */
  datatype Value = Null | Bool(b: bool) | Num(n: int) | Str(s: string) | Obj(fields: map<string, Value>)

  /** A plain object: its own enumerable properties. `delete o.k` is `o - {k}`. */
  type Object = map<string, Value>

  /** JavaScript truthiness (`NaN` and `-0` are not modelled). */
  predicate Truthy(v: Value) {
    match v
    case Null => false
    case Bool(b) => b
    case Num(n) => n != 0
    case Str(s) => s != ""
    case Obj(_) => true
  }

  /** Truthiness of the property read `o[k]`, where a missing key reads as `undefined`. */
  predicate TruthyAt(o: Object, k: string) {
    k in o && Truthy(o[k])
  }

  /** `o[k] || null`: the property if it is truthy, `null` otherwise. */
  function OrNull(o: Object, k: string): (v: Value)
    ensures TruthyAt(o, k) ==> v == o[k]
    ensures !TruthyAt(o, k) ==> v == Null
  {
    if TruthyAt(o, k) then o[k] else Null
  }

  /**
    The characters matched by `\s` in an ECMAScript regular expression: the
    WhiteSpace (tab, vertical tab, form feed, space, no-break space, byte order
    mark and the Unicode space separators) and LineTerminator characters.
  */
  predicate IsSpace(c: char) {
    || c == '\t' || c == '\n' || c == '\U{000B}' || c == '\U{000C}' || c == '\r' || c == ' '
    || c == '\U{00A0}' || c == '\U{1680}' || ('\U{2000}' <= c <= '\U{200A}')
    || c == '\U{2028}' || c == '\U{2029}' || c == '\U{202F}' || c == '\U{205F}'
    || c == '\U{3000}' || c == '\U{FEFF}'
  }

  /** Every character of `s` is whitespace (vacuously true of the empty string). */
  predicate AllSpace(s: string) {
    forall i :: 0 <= i < |s| ==> IsSpace(s[i])
  }

  /** The length of the leading run of whitespace of `s[from..]`, counted from `from`. */
  function LeadingSpaceEnd(s: string, from: nat): (k: nat)
    requires from <= |s|
    ensures from <= k <= |s|
    ensures forall i :: from <= i < k ==> IsSpace(s[i])
    ensures k < |s| ==> !IsSpace(s[k])
    decreases |s| - from
  {
    if from < |s| && IsSpace(s[from]) then LeadingSpaceEnd(s, from + 1) else from
  }

  /** The index where the trailing run of whitespace of `s[..to]` starts. */
  function TrailingSpaceStart(s: string, to: nat): (k: nat)
    requires to <= |s|
    ensures k <= to
    ensures forall i :: k <= i < to ==> IsSpace(s[i])
    ensures 0 < k ==> !IsSpace(s[k - 1])
  {
    if 0 < to && IsSpace(s[to - 1]) then TrailingSpaceStart(s, to - 1) else to
  }

  /**
    `s.replace(/^\s+|\s+$/g, '')`. The global replacement removes the leading
    whitespace run and the whitespace run that reaches the end; inner runs are
    kept. The result is the slice of `s` between two all-whitespace margins, it
    neither starts nor ends with whitespace, and it is empty exactly when `s` is
    whitespace only.
  */
  function Trim(s: string): (r: string)
    ensures exists a :: 0 <= a <= |s| - |r| && r == s[a..a + |r|] && AllSpace(s[..a]) && AllSpace(s[a + |r|..])
    ensures r != [] ==> !IsSpace(r[0]) && !IsSpace(r[|r| - 1])
    ensures r == [] <==> AllSpace(s)
  {
    var a := LeadingSpaceEnd(s, 0);
    var b := TrailingSpaceStart(s, |s|);
    var e := if b < a then a else b;
    TrimMargins(s, a, e);
    s[a..e]
  }

  /** The margins `Trim` cuts off are whitespace, and nothing is left only when all of `s` is. */
  lemma TrimMargins(s: string, a: nat, e: nat)
    requires a == LeadingSpaceEnd(s, 0)
    requires e == (if TrailingSpaceStart(s, |s|) < a then a else TrailingSpaceStart(s, |s|))
    ensures a <= e <= |s| && AllSpace(s[..a]) && AllSpace(s[e..])
    ensures a < e ==> !IsSpace(s[a]) && !IsSpace(s[e - 1])
    ensures a == e <==> AllSpace(s)
  {
    assert AllSpace(s[..a]) by {
      forall i | 0 <= i < a ensures IsSpace(s[..a][i]) { assert s[..a][i] == s[i]; }
    }
    assert AllSpace(s[e..]) by {
      forall i | 0 <= i < |s| - e ensures IsSpace(s[e..][i]) { assert s[e..][i] == s[e + i]; }
    }
    if a == e {
      forall i | 0 <= i < |s| ensures IsSpace(s[i]) {
        assert s[..a][i] == s[i];
      }
    }
  }

  /** `sep` occurs in `s` starting at index `j`. */
  predicate OccursAt(s: string, sep: string, j: int) {
    0 <= j && j + |sep| <= |s| && s[j..j + |sep|] == sep
  }

  /** `sep` occurs somewhere in `s`. */
  predicate Contains(s: string, sep: string) {
    exists j | 0 <= j <= |s| :: OccursAt(s, sep, j)
  }

  /** The first index at or after `from` where `sep` occurs in `s`. */
  function FindFrom(s: string, sep: string, from: nat): (r: Option<nat>)
    requires sep != []
    ensures r.Some? ==> from <= r.value && OccursAt(s, sep, r.value)
    ensures forall j :: from <= j && (r.None? || j < r.value) ==> !OccursAt(s, sep, j)
    decreases |s| - from
  {
    if from + |sep| > |s| then None
    else if s[from..from + |sep|] == sep then Some(from)
    else FindFrom(s, sep, from + 1)
  }

  /** `parts` joined back together with `sep` between consecutive parts. */
  function Join(parts: seq<string>, sep: string): string {
    if parts == [] then ""
    else if |parts| == 1 then parts[0]
    else parts[0] + sep + Join(parts[1..], sep)
  }

  /**
    In `p + sep`, the first occurrence of `sep` is the appended one: a piece
    that a scan from its start ends at the next separator.
  */
  predicate EndsAtNextSep(p: string, sep: string) {
    forall j :: 0 <= j < |p| ==> !OccursAt(p + sep, sep, j)
  }

  /**
    `s.split(sep)` for a non-empty string separator: the pieces between the
    occurrences of `sep` found by scanning from the left. Joining the pieces
    with `sep` gives `s` back and no piece contains `sep`; the first piece ends
    at the earliest occurrence, and every piece but the last ends at the next
    occurrence after its start. `SplitUnique` shows that these clauses leave
    no other choice of pieces.
  */
  function Split(s: string, sep: string): (parts: seq<string>)
    requires sep != []
    ensures |parts| >= 1
    ensures Join(parts, sep) == s
    ensures forall i :: 0 <= i < |parts| ==> !Contains(parts[i], sep)
    ensures !Contains(s, sep) <==> |parts| == 1
    ensures Contains(s, sep) ==> OccursAt(s, sep, |parts[0]|)
    ensures forall j :: 0 <= j < |parts[0]| ==> !OccursAt(s, sep, j)
    ensures forall k :: 0 <= k < |parts| - 1 ==> EndsAtNextSep(parts[k], sep)
    decreases |s|
  {
    match FindFrom(s, sep, 0)
    case None =>
      [s]
    case Some(i) =>
      var rest := Split(s[i + |sep|..], sep);
      SplitAtOccurrence(s, sep, i, rest);
      [s[..i]] + rest
  }

  /** Cutting `s` at the first occurrence of `sep` and splitting the rest gives the pieces of `s`. */
  lemma SplitAtOccurrence(s: string, sep: string, i: nat, rest: seq<string>)
    requires sep != [] && OccursAt(s, sep, i) && forall j :: 0 <= j < i ==> !OccursAt(s, sep, j)
    requires |rest| >= 1 && Join(rest, sep) == s[i + |sep|..]
    requires forall k :: 0 <= k < |rest| ==> !Contains(rest[k], sep)
    requires forall k :: 0 <= k < |rest| - 1 ==> EndsAtNextSep(rest[k], sep)
    ensures var parts := [s[..i]] + rest;
            && |parts| >= 2 && Join(parts, sep) == s && Contains(s, sep) && OccursAt(s, sep, |parts[0]|)
            && (forall k :: 0 <= k < |parts| ==> !Contains(parts[k], sep))
            && (forall k :: 0 <= k < |parts| - 1 ==> EndsAtNextSep(parts[k], sep))
  {
    var parts := [s[..i]] + rest;
    JoinCons(s[..i], rest, sep);
    BeforeFirstOccurrence(s, sep, i);
    EndsAtFirstOccurrence(s, sep, i);
    assert s == s[..i] + sep + s[i + |sep|..];
    assert forall k :: 1 <= k < |parts| ==> parts[k] == rest[k - 1];
  }

  /** What precedes the first occurrence of `sep` ends at the next separator. */
  lemma EndsAtFirstOccurrence(s: string, sep: string, i: nat)
    requires sep != [] && OccursAt(s, sep, i) && forall j :: 0 <= j < i ==> !OccursAt(s, sep, j)
    ensures EndsAtNextSep(s[..i], sep)
  {
    var p := s[..i];
    assert p + sep == s[..i + |sep|];
    forall j | 0 <= j < |p| ensures OccursAt(p + sep, sep, j) ==> OccursAt(s, sep, j) {
      assert (p + sep)[j..j + |sep|] == s[..i + |sep|][j..j + |sep|] == s[j..j + |sep|];
    }
  }

  /**
    The clauses of `Split` determine its pieces: any pieces that join back to
    `s`, whose last piece has no `sep` and whose other pieces each end at the
    next separator, are `Split(s, sep)`.
  */
  lemma {:induction false} SplitUnique(s: string, sep: string, parts: seq<string>)
    requires sep != [] && |parts| >= 1 && Join(parts, sep) == s
    requires forall k :: 0 <= k < |parts| - 1 ==> EndsAtNextSep(parts[k], sep)
    requires !Contains(parts[|parts| - 1], sep)
    ensures parts == Split(s, sep)
    decreases |parts|
  {
    if |parts| == 1 {
      assert s == parts[0];
    } else {
      var p, rest := parts[0], parts[1..];
      assert parts == [p] + rest;
      JoinCons(p, rest, sep);
      var tail := Join(rest, sep);
      assert s == p + sep + tail;
      assert OccursAt(s, sep, |p|) by {
        assert s[|p|..|p| + |sep|] == sep;
      }
      assert EndsAtNextSep(p, sep);
      assert s[..|p| + |sep|] == p + sep;
      forall j | 0 <= j < |p| ensures OccursAt(s, sep, j) ==> OccursAt(p + sep, sep, j) {
        assert s[j..j + |sep|] == s[..|p| + |sep|][j..j + |sep|] == (p + sep)[j..j + |sep|];
      }
      var found := FindFrom(s, sep, 0);
      assert found == Some(|p|);
      assert s[..|p|] == p && s[|p| + |sep|..] == tail;
      assert forall k :: 0 <= k < |rest| - 1 ==> rest[k] == parts[k + 1];
      SplitUnique(tail, sep, rest);
    }
  }

  lemma JoinCons(p: string, rest: seq<string>, sep: string)
    requires rest != []
    ensures Join([p] + rest, sep) == p + sep + Join(rest, sep)
  {
    assert ([p] + rest)[1..] == rest;
  }

  /**
    The first piece of a split is what precedes the first occurrence of the
    separator, and the other pieces are the split of what follows it.
  */
  lemma SplitHead(s: string, sep: string)
    requires sep != [] && |Split(s, sep)| >= 2
    ensures var parts := Split(s, sep);
            var i := |parts[0]|;
            && OccursAt(s, sep, i) && s[..i] == parts[0] && s[i + |sep|..] == Join(parts[1..], sep)
            && parts[1..] == Split(s[i + |sep|..], sep)
  {
    var parts := Split(s, sep);
    assert parts == [parts[0]] + parts[1..];
    JoinCons(parts[0], parts[1..], sep);
  }

  /** Joined pieces start with the first piece, followed by the separator when there are more. */
  lemma JoinHead(parts: seq<string>, sep: string)
    requires parts != []
    ensures |parts[0]| <= |Join(parts, sep)| && Join(parts, sep)[..|parts[0]|] == parts[0]
    ensures |parts| == 1 ==> Join(parts, sep) == parts[0]
    ensures |parts| >= 2 ==> OccursAt(Join(parts, sep), sep, |parts[0]|)
  {
    if |parts| >= 2 {
      assert parts == [parts[0]] + parts[1..];
      JoinCons(parts[0], parts[1..], sep);
    }
  }

  /** What precedes the first occurrence of `sep` does not contain `sep`. */
  lemma BeforeFirstOccurrence(s: string, sep: string, i: nat)
    requires sep != []
    requires OccursAt(s, sep, i)
    requires forall j :: 0 <= j < i ==> !OccursAt(s, sep, j)
    ensures !Contains(s[..i], sep)
  {
    forall j | 0 <= j <= i ensures !OccursAt(s[..i], sep, j) {
      if OccursAt(s[..i], sep, j) {
        assert s[..i][j..j + |sep|] == s[j..j + |sep|];
        assert OccursAt(s, sep, j) && j < i;
        assert false;
      }
    }
  }
}
