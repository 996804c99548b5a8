/** The string operations the bridge applies to keys and sensor ids. */
module Text {

  /** `s.replace(c, "")`: every occurrence of `c` removed, the rest kept in order. */
  function RemoveAll(s: string, c: char): (r: string)
    ensures c !in r
    ensures |r| <= |s|
    ensures c !in s ==> r == s
  {
    if s == [] then []
    else if s[0] == c then RemoveAll(s[1..], c)
    else [s[0]] + RemoveAll(s[1..], c)
  }

  /** Every other character survives the removal, and nothing new appears. */
  lemma {:induction false} RemoveAllKeeps(s: string, c: char, ch: char)
    requires ch != c
    ensures ch in RemoveAll(s, c) <==> ch in s
  {
    if s != [] {
      RemoveAllKeeps(s[1..], c, ch);
      assert s == [s[0]] + s[1..];
    }
  }

  /** Removal distributes over concatenation. */
  lemma {:induction false} RemoveAllAppend(a: string, b: string, c: char)
    ensures RemoveAll(a + b, c) == RemoveAll(a, c) + RemoveAll(b, c)
  {
    if a != [] {
      RemoveAllAppend(a[1..], b, c);
      assert (a + b)[1..] == a[1..] + b;
      assert (a + b)[0] == a[0];
      if a[0] != c {
        assert RemoveAll(a + b, c) == [a[0]] + RemoveAll(a[1..] + b, c);
      }
    } else {
      assert a + b == b;
    }
  }

  /** Joining two `c`-free parts with `c` and removing `c` again just concatenates them. */
  lemma RemoveAllOfJoined(a: string, b: string, c: char)
    requires c !in a && c !in b
    ensures RemoveAll(a + [c] + b, c) == a + b
  {
    var ac := a + [c];
    assert RemoveAll([c], c) == [] by { assert [c][1..] == []; }
    calc {
      RemoveAll(ac + b, c);
    == { RemoveAllAppend(ac, b, c); }
      RemoveAll(ac, c) + RemoveAll(b, c);
    == { RemoveAllAppend(a, [c], c); }
      RemoveAll(a, c) + RemoveAll([c], c) + RemoveAll(b, c);
    ==
      a + b;
    }
  }

  /** The parts, one after the other. */
  function Concat(parts: seq<string>): string
  {
    if parts == [] then [] else parts[0] + Concat(parts[1..])
  }

  /** `c.join(parts)`. */
  function Join(parts: seq<string>, c: char): string
  {
    if parts == [] then []
    else if |parts| == 1 then parts[0]
    else parts[0] + [c] + Join(parts[1..], c)
  }

  /** `s.split(c)`: the maximal `c`-free pieces of `s`, in order; joining them with `c`
      gives `s` back. */
  function Split(s: string, c: char): (parts: seq<string>)
    ensures |parts| >= 1
    ensures forall i :: 0 <= i < |parts| ==> c !in parts[i]
    ensures Join(parts, c) == s
  {
    if s == [] then [[]]
    else
      var rest := Split(s[1..], c);
      if s[0] == c then
        assert ([[]] + rest)[1..] == rest;
        [[]] + rest
      else
        var parts := [[s[0]] + rest[0]] + rest[1..];
        assert parts[1..] == rest[1..];
        assert s == [s[0]] + s[1..];
        parts
  }

  /** Removing `c` from `c`-free parts joined by `c` concatenates the parts: the
      characters keep their order and none is lost. */
  lemma {:induction false} RemoveAllOfJoin(parts: seq<string>, c: char)
    requires forall i :: 0 <= i < |parts| ==> c !in parts[i]
    ensures RemoveAll(Join(parts, c), c) == Concat(parts)
  {
    if |parts| == 1 {
      assert Concat(parts) == parts[0] + Concat([]);
    } else if |parts| > 1 {
      var rest := parts[1..];
      RemoveAllOfJoin(rest, c);
      calc {
        RemoveAll(Join(parts, c), c);
        RemoveAll(parts[0] + [c] + Join(rest, c), c);
      == { RemoveAllAppend(parts[0] + [c], Join(rest, c), c); }
        RemoveAll(parts[0] + [c], c) + RemoveAll(Join(rest, c), c);
      == { RemoveAllAppend(parts[0], [c], c); assert [c][1..] == []; }
        parts[0] + RemoveAll(Join(rest, c), c);
        parts[0] + Concat(rest);
      }
    }
  }
}
