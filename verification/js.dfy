/**
 The few JavaScript value behaviours the server code relies on: `undefined`
 and non-string values, truthiness of strings, bytes, and the clamping
 `Uint8Array.prototype.slice`.
 */
module Js {

  /** `None` stands for `undefined` (or, where a string is expected, for any
      value that is not a string). */
  datatype Option<+T> = None | Some(value: T)

  newtype byte = b: int | 0 <= b < 256

  type Bytes = seq<byte>

  /** `!!v` for a value that should be a string: only a non-empty string is truthy. */
  predicate Truthy(v: Option<string>)
  {
    v.Some? && v.value != ""
  }

  function Min(a: int, b: int): (m: int)
  {
    if a <= b then a else b
  }

  /** `s.slice(from, to)` with non-negative arguments: both ends are clamped to
      the length, and an end before the start gives the empty array. */
  function Slice(s: Bytes, from: nat, to: nat): (r: Bytes)
    ensures from <= to <= |s| ==> r == s[from..to]
    ensures to <= from || |s| <= from ==> r == []
    ensures from <= |s| < to ==> r == s[from..]
  {
    var lo := Min(from, |s|);
    var hi := Min(to, |s|);
    if hi <= lo then [] else s[lo..hi]
  }

  /** `s.slice(from)`: everything from `from` on, empty when `from` is past the end. */
  function SliceFrom(s: Bytes, from: nat): (r: Bytes)
    ensures from <= |s| ==> r == s[from..]
    ensures |s| <= from ==> r == []
  {
    Slice(s, from, |s|)
  }

  /** Three consecutive slices at cut points `a <= b` put back together give
      the whole array, whatever its length. */
  lemma SlicesCover(s: Bytes, a: nat, b: nat)
    requires a <= b
    ensures Slice(s, 0, a) + Slice(s, a, b) + SliceFrom(s, b) == s
  {
    if |s| <= a {
      assert Slice(s, 0, a) == s;
    } else if |s| <= b {
      assert Slice(s, 0, a) + Slice(s, a, b) == s[..a] + s[a..];
      assert s[..a] + s[a..] == s;
    } else {
      assert Slice(s, 0, a) + Slice(s, a, b) + SliceFrom(s, b) == s[..a] + s[a..b] + s[b..];
      assert s[..a] + s[a..b] == s[..b];
      assert s[..b] + s[b..] == s;
    }
  }
}
