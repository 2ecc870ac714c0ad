/** String helpers with the meaning of their JavaScript counterparts. */
module Text {

  /** `s.startsWith(prefix)` */
  predicate StartsWith(s: string, prefix: string) {
    |prefix| <= |s| && s[..|prefix|] == prefix
  }

  /** `s.split(sep)` for a one-character separator: the pieces between separators, in order. */
  function Split(s: string, sep: char): (parts: seq<string>)
    ensures |parts| >= 1
    ensures forall i :: 0 <= i < |parts| ==> sep !in parts[i]
  {
    if |s| == 0 then [""]
    else
      var rest := Split(s[1..], sep);
      if s[0] == sep then [""] + rest
      else [[s[0]] + rest[0]] + rest[1..]
  }

  /** `parts.join(sep)` */
  function Join(parts: seq<string>, sep: string): string {
    if |parts| == 0 then ""
    else if |parts| == 1 then parts[0]
    else parts[0] + sep + Join(parts[1..], sep)
  }

  /** Joining the pieces of a split with the same separator gives back the string. */
  lemma {:induction false} JoinSplit(s: string, sep: char)
    ensures Join(Split(s, sep), [sep]) == s
  {
    if |s| > 0 {
      var rest := Split(s[1..], sep);
      JoinSplit(s[1..], sep);
      if s[0] == sep {
        assert Split(s, sep) == [""] + rest;
        assert s == [sep] + s[1..];
      } else {
        var parts := Split(s, sep);
        assert parts == [[s[0]] + rest[0]] + rest[1..];
        if |rest| == 1 {
          assert Join(rest, [sep]) == rest[0];
        } else {
          assert Join(rest, [sep]) == rest[0] + [sep] + Join(rest[1..], [sep]);
          assert parts[1..] == rest[1..];
        }
        assert s == [s[0]] + s[1..];
      }
    }
  }

  /** Splitting a join of separator-free pieces gives back exactly those pieces. */
  lemma {:induction false} SplitJoin(parts: seq<string>, sep: char)
    requires |parts| >= 1
    requires forall i :: 0 <= i < |parts| ==> sep !in parts[i]
    ensures Split(Join(parts, [sep]), sep) == parts
    decreases |Join(parts, [sep])|
  {
    var s := Join(parts, [sep]);
    if parts[0] == "" {
      if |parts| > 1 {
        var tail := parts[1..];
        assert s == [sep] + Join(tail, [sep]);
        SplitJoin(tail, sep);
        assert s[1..] == Join(tail, [sep]);
        assert parts == [""] + tail;
      }
    } else {
      var w := parts[0][1..];
      var parts' := [w] + parts[1..];
      assert parts[0] == [parts[0][0]] + w;
      assert forall i :: 0 <= i < |parts'| ==> sep !in parts'[i] by {
        forall i | 0 <= i < |parts'| ensures sep !in parts'[i] {
          if i == 0 {
            assert forall c :: c in w ==> c in parts[0];
          } else {
            assert parts'[i] == parts[i];
          }
        }
      }
      JoinHead(parts, w, sep);
      SplitJoin(parts', sep);
      assert s[0] == parts[0][0] && s[0] != sep;
      assert s[1..] == Join(parts', [sep]);
    }
  }

  /** Peeling the first character of the first piece off a join. */
  lemma JoinHead(parts: seq<string>, w: string, sep: char)
    requires |parts| >= 1 && parts[0] != "" && w == parts[0][1..]
    ensures Join(parts, [sep]) == [parts[0][0]] + Join([w] + parts[1..], [sep])
  {
    var parts' := [w] + parts[1..];
    assert parts'[1..] == parts[1..];
    if |parts| > 1 {
      assert Join(parts, [sep]) == parts[0] + [sep] + Join(parts[1..], [sep]);
      assert Join(parts', [sep]) == w + [sep] + Join(parts[1..], [sep]);
    }
    assert parts[0] == [parts[0][0]] + w;
  }

  /** The first piece of a split is the longest separator-free prefix of the string. */
  lemma {:induction false} SplitFirst(s: string, sep: char)
    ensures StartsWith(s, Split(s, sep)[0])
    ensures |Split(s, sep)[0]| < |s| ==> s[|Split(s, sep)[0]|] == sep
    ensures sep !in s ==> Split(s, sep) == [s]
  {
    if |s| > 0 {
      SplitFirst(s[1..], sep);
      if sep !in s {
        assert sep !in s[1..] by {
          forall c | c in s[1..] ensures c != sep { assert c in s; }
        }
        assert s == [s[0]] + s[1..];
      }
    }
  }

  /** A string with no separator at its first `n` positions splits into a first piece at least `n` long. */
  lemma {:induction false} SplitFirstAtLeast(s: string, sep: char, n: nat)
    requires n <= |s|
    requires forall i :: 0 <= i < n ==> s[i] != sep
    ensures |Split(s, sep)[0]| >= n
  {
    if n > 0 {
      SplitFirstAtLeast(s[1..], sep, n - 1);
    }
  }
}
