/** The growing output buffer of the string parser (`gd_tok_append_byte`, `gd_tok_append_utf8`). */
module JsonBuffer {
  import opened Seqs
  import opened Bytes
  import opened Utf8

  /** Bytes collected so far. There is always room for one more, the terminating NUL. */
  class Buffer {
    var data: array<Byte>
    var len: nat

    ghost predicate Valid()
      reads this, data
    {
      len < data.Length <= Max(64, 2 * len)
    }

    ghost function Contents(): Data
      requires Valid()
      reads this, data
    {
      data[..len]
    }

    constructor ()
      ensures Valid() && fresh(data) && Contents() == []
    {
      data := new Byte[64](i => 0);
      len := 0;
    }

    /** `gd_tok_append_byte`; memory is never exhausted. */
    method AppendByte(c: Byte)
      requires Valid() && len < 0x4000_0000_0000_0000
      modifies this, data
      ensures Valid() && Contents() == old(Contents()) + [c] && len == old(len) + 1
      ensures data == old(data) || fresh(data)
    {
      if len + 1 >= data.Length {
        Grow();
      }
      data[len] := c;
      len := len + 1;
    }

    /** `realloc` to twice the capacity. */
    method Grow()
      requires Valid() && len + 1 >= data.Length
      modifies this`data
      ensures fresh(data) && data.Length == 2 * old(data.Length) && data[..len] == old(data[..len])
    {
      var bigger := new Byte[2 * data.Length](i => 0);
      for i := 0 to len
        invariant data == old(data) && bigger[..i] == old(data[..i])
      {
        bigger[i] := data[i];
      }
      data := bigger;
    }

    method AppendAll(bytes: Data)
      requires Valid() && len + |bytes| < 0x4000_0000_0000_0000
      modifies this, data
      ensures Valid() && Contents() == old(Contents()) + bytes && len == old(len) + |bytes|
      ensures data == old(data) || fresh(data)
    {
      for i := 0 to |bytes|
        invariant Valid() && Contents() == old(Contents()) + bytes[..i] && len == old(len) + i
        invariant data == old(data) || fresh(data)
      {
        AppendByte(bytes[i]);
      }
    }

    /** `gd_tok_append_utf8`: false for a code point without encoding. */
    method AppendUtf8(cp: nat) returns (ok: bool)
      requires Valid() && len + 4 < 0x4000_0000_0000_0000
      modifies this, data
      ensures Valid() && (ok <==> Encodable(cp))
      ensures data == old(data) || fresh(data)
      ensures ok ==> Contents() == old(Contents()) + Encode(cp)
      ensures !ok ==> Contents() == old(Contents()) && len == old(len)
    {
      if cp == 0 || cp > 0x10FFFF || (cp >= 0xD800 && cp <= 0xDFFF) {
        return false;
      }
      BitsAreEncode(cp);
      AppendAll(EncodeBits(cp));
      ok := true;
    }
  }
}
