/**
 * The console's key/value line parser: "k1=v1, k2=v2" becomes a document whose
 * values are the (trimmed) strings.
 */
module KeyValueLine {
  import opened Errors
  import opened JavaText
  import opened Values

  /** Every piece between two separators (or an end), the empty ones included. */
  function SplitAt(s: string, sep: char): (parts: seq<string>)
    ensures |parts| >= 1
    ensures forall i :: 0 <= i < |parts| ==> sep !in parts[i]
    ensures JoinWith(parts, [sep]) == s
    ensures sep !in s ==> parts == [s]
  {
    if s == [] then [[]]
    else
      var rest := SplitAt(s[1..], sep);
      if s[0] == sep then
        assert s == [sep] + s[1..];
        [[]] + rest
      else
        assert s == [s[0]] + s[1..];
        assert JoinWith([[s[0]] + rest[0]] + rest[1..], [sep]) == [s[0]] + JoinWith(rest, [sep]) by {
          if |rest| > 1 {
            assert ([[s[0]] + rest[0]] + rest[1..])[1..] == rest[1..];
          }
        }
        [[s[0]] + rest[0]] + rest[1..]
  }

  /** The parts without the empty ones at the end. */
  function DropTrailingEmpty(parts: seq<string>): (r: seq<string>)
    ensures |r| <= |parts| && r == parts[..|r|]
    ensures r == [] || r[|r| - 1] != []
    ensures forall i :: |r| <= i < |parts| ==> parts[i] == []
  {
    if parts == [] || parts[|parts| - 1] != [] then parts
    else DropTrailingEmpty(parts[..|parts| - 1])
  }

  /**
   * String.split(","): when the text has a comma, the pieces between commas with the
   * trailing empty pieces removed; otherwise the text itself as the only piece.
   */
  function SplitCommas(s: string): (parts: seq<string>)
    ensures forall i :: 0 <= i < |parts| ==> ',' !in parts[i]
    ensures ',' !in s ==> parts == [s]
    ensures ',' in s ==> parts == [] || parts[|parts| - 1] != []
    ensures ',' in s ==> exists n :: JoinWith(parts + Empties(n), ",") == s
  {
    if ',' !in s then [s]
    else
      var all := SplitAt(s, ',');
      var parts := DropTrailingEmpty(all);
      var n := |all| - |parts|;
      assert all == parts + Empties(n) by {
        assert all[|parts|..] == Empties(n);
      }
      parts
  }

  /** n empty pieces. */
  function Empties(n: nat): (e: seq<string>)
    ensures |e| == n && forall i :: 0 <= i < n ==> e[i] == []
  {
    seq(n, _ => [])
  }

  /** split("=", 2): the text before the first '=' and everything after it, or None without one. */
  function SplitFirst(s: string): (r: Option<(string, string)>)
    ensures r.None? <==> '=' !in s
    ensures r.Some? ==> s == r.value.0 + "=" + r.value.1 && '=' !in r.value.0
  {
    if s == [] then None
    else if s[0] == '=' then Some(([], s[1..]))
    else match SplitFirst(s[1..])
      case None => None
      case Some((k, v)) =>
        assert s == [s[0]] + s[1..];
        Some(([s[0]] + k, v))
  }

  /** The entry one segment contributes: the segment is trimmed, split at its first '=',
      and both sides trimmed again. */
  function Entry(segment: string): (r: Option<(string, string)>)
    ensures r.None? <==> '=' !in Trim(segment)
  {
    match SplitFirst(Trim(segment))
    case None => None
    case Some((k, v)) => Some((Trim(k), Trim(v)))
  }

  /** An entry's key and value are the trimmed text before and after the trimmed segment's first '='. */
  lemma EntryTrims(segment: string, i: nat)
    requires var t := Trim(segment); i < |t| && t[i] == '=' && '=' !in t[..i]
    ensures var t := Trim(segment); Entry(segment) == Some((Trim(t[..i]), Trim(t[i + 1..])))
  {
    var t := Trim(segment);
    assert t == t[..i] + "=" + t[i + 1..];
    SplitsAtFirstEquals(t[..i], t[i + 1..]);
  }

  /** The entry of each segment, in order. */
  function Pairs(segments: seq<string>): (pairs: seq<Option<(string, string)>>)
    ensures |pairs| == |segments|
  {
    if segments == [] then [] else Pairs(segments[..|segments| - 1]) + [Entry(segments[|segments| - 1])]
  }

  lemma {:induction false} PairsAt(segments: seq<string>, i: nat)
    requires i < |segments|
    ensures Pairs(segments)[i] == Entry(segments[i])
  {
    if i < |segments| - 1 {
      PairsAt(segments[..|segments| - 1], i);
    }
  }

  /** The map after the entries, in order: each later put replaces an earlier one. */
  function Fold(pairs: seq<Option<(string, string)>>): Document {
    if pairs == [] then map[]
    else
      var m := Fold(pairs[..|pairs| - 1]);
      match pairs[|pairs| - 1]
      case None => m
      case Some((k, v)) => m[k := Str(v)]
  }

  /** What parseKVP returns for a line: nothing for a null or blank line. */
  function Parsed(line: Option<string>): Document {
    if line.None? || IsBlank(line.value) then map[] else Fold(Pairs(SplitCommas(line.value)))
  }

  lemma FoldStep(segments: seq<string>, i: nat)
    requires i < |segments|
    ensures Fold(Pairs(segments[..i + 1])) == match Entry(segments[i])
                                              case None => Fold(Pairs(segments[..i]))
                                              case Some((k, v)) => Fold(Pairs(segments[..i]))[k := Str(v)]
  {
    assert segments[..i + 1][..i] == segments[..i];
    var ps := Pairs(segments[..i]);
    assert (ps + [Entry(segments[i])])[..|ps|] == ps;
  }

  /** parseKVP: one put per segment that has an '='. */
  method ParseKvp(line: Option<string>) returns (m: Document)
    ensures m == Parsed(line)
    ensures line.None? || IsBlank(line.value) ==> m == map[]
  {
    m := map[];
    if line.None? || IsBlank(line.value) {
      return;
    }
    var segments := SplitCommas(line.value);
    var i := 0;
    while i < |segments|
      invariant 0 <= i <= |segments|
      invariant m == Fold(Pairs(segments[..i]))
    {
      var e := Entry(segments[i]);
      FoldStep(segments, i);
      if e.Some? {
        m := m[e.value.0 := Str(e.value.1)];
      }
      i := i + 1;
    }
    assert segments[..i] == segments;
  }

  /** Every value is a string: nothing is converted to a number. */
  lemma {:induction false} FoldValuesAreStrings(pairs: seq<Option<(string, string)>>)
    ensures forall k :: k in Fold(pairs) ==> Fold(pairs)[k].Str?
  {
    if pairs != [] {
      FoldValuesAreStrings(pairs[..|pairs| - 1]);
    }
  }

  /** A key is present exactly when some segment names it. */
  lemma {:induction false} FoldKeys(pairs: seq<Option<(string, string)>>, k: string)
    ensures k in Fold(pairs) <==> exists i :: 0 <= i < |pairs| && pairs[i].Some? && pairs[i].value.0 == k
  {
    if pairs != [] {
      var front := pairs[..|pairs| - 1];
      FoldKeys(front, k);
      assert forall i :: 0 <= i < |front| ==> front[i] == pairs[i];
    }
  }

  /** The last segment that names a key decides its value. */
  lemma {:induction false} LastWins(pairs: seq<Option<(string, string)>>, i: nat)
    requires i < |pairs| && pairs[i].Some?
    requires forall j :: i < j < |pairs| && pairs[j].Some? ==> pairs[j].value.0 != pairs[i].value.0
    ensures pairs[i].value.0 in Fold(pairs)
    ensures Fold(pairs)[pairs[i].value.0] == Str(pairs[i].value.1)
  {
    if i < |pairs| - 1 {
      var front := pairs[..|pairs| - 1];
      assert front[i] == pairs[i];
      LastWins(front, i);
    }
  }

  /** Only the first '=' separates: whatever follows it, further '=' included, is the value. */
  lemma {:induction false} SplitsAtFirstEquals(k: string, v: string)
    requires '=' !in k
    ensures SplitFirst(k + "=" + v) == Some((k, v))
  {
    var s := k + "=" + v;
    if k == [] {
      assert s == "=" + v && s[1..] == v;
    } else {
      assert s[0] == k[0] && s[1..] == k[1..] + "=" + v;
      SplitsAtFirstEquals(k[1..], v);
      assert [k[0]] + k[1..] == k;
    }
  }
}
