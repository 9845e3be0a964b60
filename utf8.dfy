/**
 * Text as the bridge handles it: Rust `String`s are UTF-8 byte sequences, so
 * `String::len()` is the number of bytes, which is `|s|` here.
 */
module Utf8 {
  import opened Wrappers

  newtype byte = b: int | 0 <= b < 256

  type Bytes = seq<byte>

  /** The UTF-8 bytes of an ASCII literal: one byte per character. */
  function Ascii(s: string): Bytes
    requires forall i | 0 <= i < |s| :: s[i] as int < 128
  {
    seq(|s|, i requires 0 <= i < |s| => s[i] as int as byte)
  }

  /** `u8::to_ascii_lowercase`: only `A`..`Z` change. */
  function LowerByte(b: byte): byte
  {
    if 65 <= b <= 90 then b + 32 else b
  }

  /** `str::to_ascii_lowercase`, byte by byte; non-ASCII bytes are left alone. */
  function ToAsciiLowercase(s: Bytes): (r: Bytes)
    ensures |r| == |s|
    ensures forall i | 0 <= i < |s| :: r[i] == LowerByte(s[i])
  {
    seq(|s|, i requires 0 <= i < |s| => LowerByte(s[i]))
  }

  predicate OccursAt(haystack: Bytes, needle: Bytes, k: nat)
  {
    k + |needle| <= |haystack| && haystack[k..k + |needle|] == needle
  }

  /** `str::find`: the byte index of the first occurrence of `needle`. */
  function Find(haystack: Bytes, needle: Bytes): (r: Option<nat>)
    ensures r.Some? ==> OccursAt(haystack, needle, r.value)
    ensures r.Some? ==> forall j: nat | j < r.value :: !OccursAt(haystack, needle, j)
    ensures r.None? ==> forall j: nat :: !OccursAt(haystack, needle, j)
  {
    FindFrom(haystack, needle, 0)
  }

  function FindFrom(haystack: Bytes, needle: Bytes, start: nat): (r: Option<nat>)
    ensures r.Some? ==> start <= r.value && OccursAt(haystack, needle, r.value)
    ensures r.Some? ==> forall j: nat | start <= j < r.value :: !OccursAt(haystack, needle, j)
    ensures r.None? ==> forall j: nat | start <= j :: !OccursAt(haystack, needle, j)
    decreases |haystack| - start
  {
    if start + |needle| > |haystack| then None
    else if haystack[start..start + |needle|] == needle then Some(start)
    else FindFrom(haystack, needle, start + 1)
  }

  /** An occurrence with none before it is what `Find` returns. */
  lemma FindIsFirst(haystack: Bytes, needle: Bytes, k: nat)
    requires OccursAt(haystack, needle, k)
    requires forall j: nat | j < k :: !OccursAt(haystack, needle, j)
    ensures Find(haystack, needle) == Some(k)
  {
  }
}
