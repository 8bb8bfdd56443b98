/** The fixed-size character buffer both the log stream and the asynchronous logger write into. */
module FixedBuffers {
  import opened Machine

  /** The length test of `append` compares as `int`; it is sound when passing it means the
      text really is shorter than the free space. */
  predicate GuardSound(avail: int, len: nat) {
    avail > ToInt32(len) ==> len < avail
  }

  /** For a buffer of `size` bytes the test can be trusted at every fill level exactly when the
      length survives the cast to `int`, or the cast value is at least the whole buffer. */
  lemma GuardSoundIff(size: nat, len: nat)
    requires 0 < size <= INT32_MAX && len < TWO_64
    ensures (forall avail: nat | avail <= size :: GuardSound(avail, len))
            <==> len <= INT32_MAX || ToInt32(len) >= size
  {
    if len > INT32_MAX && ToInt32(len) < size {
      assert !GuardSound(size, len);
    }
  }

  class FixedBuffer {
    const data: array<char>
    var cur: nat

    ghost predicate Valid()
      reads this
    {
      cur <= data.Length <= INT32_MAX
    }

    /** What has been written so far. */
    ghost function Contents(): (s: seq<char>)
      requires Valid()
      reads this, data
      ensures |s| == cur
    {
      data[..cur]
    }

    function Length(): int
      reads this
    {
      cur
    }

    function Avail(): int
      reads this
    {
      data.Length - cur
    }

    constructor (size: nat)
      requires size <= INT32_MAX
      ensures Valid() && fresh(data) && data.Length == size && cur == 0
    {
      data := new char[size];
      cur := 0;
    }

    /** Copies the whole text or nothing. */
    method Append(text: seq<char>)
      requires Valid() && GuardSound(Avail(), |text|)
      modifies this, data
      ensures Valid()
      ensures Contents() == if |text| < old(Avail()) then old(Contents()) + text else old(Contents())
      ensures forall i | cur <= i < data.Length :: data[i] == old(data[i])
    {
      if Avail() > ToInt32(|text|) {
        forall i | 0 <= i < |text| {
          data[cur + i] := text[i];
        }
        cur := cur + |text|;
        assert Contents() == old(Contents()) + text;
      }
    }

    /** Accepts `len` bytes the caller has already placed at the cursor. */
    method Add(len: nat)
      requires Valid() && len <= Avail()
      modifies this
      ensures Valid() && cur == old(cur) + len
      ensures Contents() == old(Contents()) + data[old(cur)..old(cur) + len]
    {
      cur := cur + len;
    }

    method Reset()
      requires Valid()
      modifies this
      ensures Valid() && Contents() == []
    {
      cur := 0;
    }

    method Bzero()
      requires Valid()
      modifies data
      ensures Valid() && forall i | 0 <= i < data.Length :: data[i] == '\0'
    {
      forall i | 0 <= i < data.Length {
        data[i] := '\0';
      }
    }
  }
}
