/** Byte strings and the C-string view of them: the `strlen` scan that both the
    setters (`ngx_strlen`) and the header conversion (`mrb_str_new_cstr`) rely on. */
module CStrings {

  /** An `u_char`. */
  newtype byte = x: int | 0 <= x < 256

  /** Number of bytes before the first zero byte of `buf`; all of `buf` when it
      holds no zero byte (a C caller must never let that happen). */
  function StrLen(buf: seq<byte>): (n: nat)
    ensures n <= |buf|
    ensures forall j :: 0 <= j < n ==> buf[j] != 0
    ensures n < |buf| ==> buf[n] == 0
  {
    if buf == [] || buf[0] == 0 then 0 else 1 + StrLen(buf[1..])
  }

  /** The bytes a C string starting at `buf` denotes: everything up to, not
      including, the first zero byte. */
  function CStr(buf: seq<byte>): (s: seq<byte>)
    ensures s <= buf
    ensures 0 !in s
    ensures |s| < |buf| ==> buf[|s|] == 0
  {
    buf[..StrLen(buf)]
  }

  /** Appending a terminator never moves the first zero byte that was already there,
      and when there was none it is found right at the end. */
  lemma {:induction false} StrLenAppendZero(s: seq<byte>)
    ensures StrLen(s + [0]) == StrLen(s)
  {
    if s != [] && s[0] != 0 {
      assert (s + [0])[1..] == s[1..] + [0];
      StrLenAppendZero(s[1..]);
    }
  }

  /** `StrLen` is the position of the first zero byte: any zero-free prefix that is
      followed by a zero byte has exactly that length. */
  lemma {:induction false} StrLenIsFirstZero(buf: seq<byte>, n: nat)
    requires n < |buf| && buf[n] == 0
    requires forall j :: 0 <= j < n ==> buf[j] != 0
    ensures StrLen(buf) == n
  {
  }

  /** A zero-free string followed by a terminator reads back as itself. */
  lemma CStrTerminated(s: seq<byte>)
    requires 0 !in s
    ensures CStr(s + [0]) == s
  {
    assert forall j :: 0 <= j < |s| ==> (s + [0])[j] == s[j];
    StrLenIsFirstZero(s + [0], |s|);
    assert (s + [0])[..|s|] == s;
  }
}
