/** The stream that formats one log record into a small buffer. */
module LogStreams {
  import opened Machine
  import opened Sequences
  import opened FixedBuffers
  import opened Decimals
  import P = LogProtocol

  const SMALL_BUFFER: nat := 4000
  const MAX_NUMERIC_SIZE: nat := 32

  /** The mirrored digit table; its middle element is the zero. */
  const DIGITS: string := "9876543210123456789"
  const ZERO: nat := 9

  // ---------------------------------------------------------------- integer formatting

  function Abs(v: int): nat { if v < 0 then -v else v }

  /** Both halves of the table spell the same digits, so the sign of a remainder is irrelevant. */
  lemma MirroredTable(lsd: int)
    requires -10 < lsd < 10
    ensures DIGITS[ZERO + lsd] == Digit(Abs(lsd))
  {
    assert DIGITS == ['9', '8', '7', '6', '5', '4', '3', '2', '1', '0', '1', '2', '3', '4', '5', '6', '7', '8', '9'];
  }

  /** Truncating division works on the magnitude and keeps the sign. */
  lemma TruncatingDigits(i: int)
    ensures Abs(TruncMod(i, 10)) == Abs(i) % 10 && -10 < TruncMod(i, 10) < 10
    ensures Abs(TruncDiv(i, 10)) == Abs(i) / 10
    ensures (i >= 0 ==> TruncDiv(i, 10) >= 0) && (i <= 0 ==> TruncDiv(i, 10) <= 0)
  {
  }

  function Reversed(s: string): (r: string)
    ensures |r| == |s|
  {
    seq(|s|, i requires 0 <= i < |s| => s[|s| - 1 - i])
  }

  lemma ReversedSnoc(s: string, c: char)
    ensures Reversed(s + [c]) == [c] + Reversed(s)
  {
  }

  /** `std::reverse` on a part of the buffer. */
  method Reverse(buf: array<char>, lo: nat, hi: nat)
    requires lo <= hi <= buf.Length
    modifies buf
    ensures buf[lo..hi] == Reversed(old(buf[lo..hi]))
    ensures forall i | 0 <= i < buf.Length && !(lo <= i < hi) :: buf[i] == old(buf[i])
  {
    var l, h := lo, hi;
    while h - l > 1
      invariant lo <= l <= h <= hi && l - lo == hi - h
      invariant forall i | lo <= i < l || h <= i < hi :: buf[i] == old(buf[lo + hi - 1 - i])
      invariant forall i | 0 <= i < buf.Length && !(lo <= i < l || h <= i < hi) :: buf[i] == old(buf[i])
    {
      h := h - 1;
      buf[l], buf[h] := buf[h], buf[l];
      l := l + 1;
    }
  }

  /** Peeling one digit off `a` moves it from the unprocessed digits to the reversed text. */
  lemma PeelDigit(a: nat, text: string)
    ensures var longer := text + [Digit(a % 10)];
            Digits(a) + Reversed(text) == (if a < 10 then "" else Digits(a / 10)) + Reversed(longer)
  {
    ReversedSnoc(text, Digit(a % 10));
    if a >= 10 {
      assert Digits(a) == Digits(a / 10) + [Digit(a % 10)];
    } else {
      assert Digits(a) == [Digit(a % 10)];
    }
  }

  /** Writes the digits of `value`, least significant first, and returns where they end. */
  method EmitDigits(buf: array<char>, start: nat, value: int) returns (p: nat)
    requires start + |Digits(Abs(value))| <= buf.Length
    modifies buf
    ensures p == start + |Digits(Abs(value))|
    ensures Reversed(buf[start..p]) == Digits(Abs(value))
    ensures forall k | 0 <= k < buf.Length && !(start <= k < p) :: buf[k] == old(buf[k])
  {
    ghost var all := Digits(Abs(value));
    var i := value;
    p := start;
    assert all == Digits(Abs(i)) + Reversed(buf[start..p]);
    while true
      invariant start <= p <= buf.Length
      invariant all == Digits(Abs(i)) + Reversed(buf[start..p])
      invariant (value >= 0 ==> i >= 0) && (value <= 0 ==> i <= 0)
      invariant forall k | 0 <= k < buf.Length && !(start <= k < p) :: buf[k] == old(buf[k])
      decreases Abs(i)
    {
      ghost var text, a := buf[start..p], Abs(i);
      TruncatingDigits(i);
      var lsd := TruncMod(i, 10);
      MirroredTable(lsd);
      PeelDigit(a, text);
      i := TruncDiv(i, 10);
      buf[p] := DIGITS[ZERO + lsd];
      p := p + 1;
      assert buf[start..p] == text + [Digit(a % 10)];
      if i == 0 {
        break;
      }
    }
  }

  /** Formats `value` at `start`, NUL-terminated, without ever negating it. */
  method Convert(buf: array<char>, start: nat, value: int) returns (len: nat)
    requires start + |Decimal(value)| < buf.Length
    modifies buf
    ensures len == |Decimal(value)|
    ensures buf[start..start + len] == Decimal(value) && buf[start + len] == '\0'
    ensures forall k | 0 <= k < buf.Length && !(start <= k <= start + len) :: buf[k] == old(buf[k])
  {
    var p := EmitDigits(buf, start, value);
    ghost var text := buf[start..p];
    if value < 0 {
      buf[p] := '-';
      p := p + 1;
      ReversedSnoc(text, '-');
      assert buf[start..p] == text + "-";
    }
    assert Reversed(buf[start..p]) == Decimal(value);
    buf[p] := '\0';
    Reverse(buf, start, p);
    len := p - start;
  }

  /** Every signed or unsigned 64-bit value takes at most 20 characters. */
  lemma TwentyCharacters(v: int)
    requires -TWO_63 <= v < TWO_64
    ensures |Decimal(v)| <= 20
  {
    assert Pow10(20) == 100_000_000_000_000_000_000 && Pow10(19) == 10_000_000_000_000_000_000 by {
      assert Pow10(4) == 10_000;
      assert Pow10(8) == 100_000_000;
      assert Pow10(12) == 1_000_000_000_000;
      assert Pow10(16) == 10_000_000_000_000_000;
    }
    DigitsLength(Abs(v), if v < 0 then 19 else 20);
  }

  // ---------------------------------------------------------------- the stream operators

  /** One `<<` operation. */
  datatype Item =
    | Text(text: string)
    | CString(chars: CStr)     // a `const char*`, with the characters before its NUL
    | Character(c: char)
    | Flag(b: bool)
    | Integer(v: int)

  datatype CStr = Null | Chars(s: string)

  function Render(item: Item): string {
    match item
    case Text(s) => s
    case CString(Null) => "(null)"
    case CString(Chars(s)) => s
    case Character(c) => [c]
    case Flag(b) => if b then "1" else "0"
    case Integer(v) => Decimal(v)
  }

  /** The texts of the items that are not numbers. */
  lemma RenderedTexts(s: string, c: char)
    ensures Render(Flag(true)) == "1" && Render(Flag(false)) == "0" && Render(Character(c)) == [c]
    ensures Render(Text(s)) == s && Render(CString(Chars(s))) == s && Render(CString(Null)) == "(null)"
  {
  }

  /** The items a C++ caller can pass: 64-bit integers, and texts whose length is an `int`. */
  predicate Passable(item: Item) {
    && |Render(item)| <= INT32_MAX
    && (item.Integer? ==> -TWO_63 <= item.v < TWO_64)
  }

  /** Whether the item still goes into a buffer holding `used` characters. */
  predicate Fits(item: Item, used: nat) {
    if item.Integer? then SMALL_BUFFER - used >= MAX_NUMERIC_SIZE
    else SMALL_BUFFER - used > |Render(item)|
  }

  function Put(contents: string, item: Item): string {
    if Fits(item, |contents|) then contents + Render(item) else contents
  }

  class LogStream {
    const buffer: FixedBuffer

    ghost predicate Valid()
      reads this, buffer
    {
      buffer.Valid() && buffer.data.Length == SMALL_BUFFER && buffer.cur < SMALL_BUFFER
    }

    ghost function Contents(): string
      requires Valid()
      reads this, buffer, buffer.data
    {
      buffer.Contents()
    }

    constructor ()
      ensures Valid() && fresh(buffer) && fresh(buffer.data) && Contents() == ""
    {
      buffer := new FixedBuffer(SMALL_BUFFER);
    }

    method FormatInteger(v: int)
      requires Valid() && Passable(Integer(v))
      modifies buffer, buffer.data
      ensures Valid() && Contents() == Put(old(Contents()), Integer(v))
    {
      TwentyCharacters(v);
      if buffer.Avail() >= MAX_NUMERIC_SIZE {
        ghost var before := buffer.Contents();
        var len := Convert(buffer.data, buffer.cur, v);
        assert buffer.Contents() == before;
        buffer.Add(len);
      }
    }

    /** Any of the `<<` operators: the whole text goes in, or none of it. */
    method Output(item: Item)
      requires Valid() && Passable(item)
      modifies buffer, buffer.data
      ensures Valid() && Contents() == Put(old(Contents()), item)
    {
      match item
      case Text(s) => buffer.Append(s);
      case CString(Null) => buffer.Append("(null)");
      case CString(Chars(s)) => buffer.Append(s);
      case Character(c) => buffer.Append([c]);
      case Flag(b) => buffer.Append(if b then "1" else "0");
      case Integer(v) => FormatInteger(v);
    }

    method ResetBuffer()
      requires Valid()
      modifies buffer
      ensures Valid() && Contents() == ""
    {
      buffer.Reset();
    }

    /** A whole record, one operator after the other. */
    method OutputAll(items: seq<Item>)
      requires Valid() && AllPassable(items)
      modifies buffer, buffer.data
      ensures Valid() && Contents() == Fold(Put, old(Contents()), items)
    {
      for i := 0 to |items|
        invariant Valid() && Contents() == Fold(Put, old(Contents()), items[..i])
      {
        FoldSnoc(Put, old(Contents()), items[..i], items[i]);
        assert items[..i] + [items[i]] == items[..i + 1];
        Output(items[i]);
      }
      assert items[..|items|] == items;
    }
  }

  // ---------------------------------------------------------------- whole records

  predicate AllPassable(items: seq<Item>) {
    forall i | 0 <= i < |items| :: Passable(items[i])
  }

  function RenderAll(items: seq<Item>): string {
    if items == [] then "" else RenderAll(items[..|items| - 1]) + Render(items[|items| - 1])
  }

  /** The items that found room, each with the record in front of it. */
  function Stored(contents: string, items: seq<Item>): seq<Item> {
    if items == [] then []
    else
      var front := items[..|items| - 1];
      var last := items[|items| - 1];
      Stored(contents, front) + if Fits(last, |Fold(Put, contents, front)|) then [last] else []
  }

  /** Whatever is streamed, the record stays below the buffer size, and it is made of whole
      renderings only. */
  lemma {:induction false} RecordsAreWhole(items: seq<Item>)
    requires AllPassable(items)
    ensures |Fold(Put, "", items)| < SMALL_BUFFER
    ensures Fold(Put, "", items) == RenderAll(Stored("", items))
  {
    if items != [] {
      var front, last := items[..|items| - 1], items[|items| - 1];
      RecordsAreWhole(front);
      if last.Integer? {
        TwentyCharacters(last.v);
      }
      var record, kept := Fold(Put, "", front), Stored("", front);
      assert Fold(Put, "", items) == Put(record, last);
      if Fits(last, |record|) {
        assert Stored("", items) == kept + [last];
        assert (kept + [last])[..|kept|] == kept;
      } else {
        assert Stored("", items) == kept;
      }
    }
  }

  /** Behind everything before it, the item still finds room: 32 characters for a number, and for a
      text more than it has. */
  predicate HasRoom(items: seq<Item>, k: nat)
    requires k < |items|
  {
    var before := |RenderAll(items[..k])|;
    if items[k].Integer? then before + 32 <= 4000 else before + |Render(items[k])| < 4000
  }

  predicate AllHaveRoom(items: seq<Item>) { forall k | 0 <= k < |items| :: HasRoom(items, k) }

  lemma AllRoomSnoc(items: seq<Item>)
    requires items != []
    ensures var n := |items| - 1;
            AllHaveRoom(items) <==> AllHaveRoom(items[..n]) && HasRoom(items, n)
  {
    var n := |items| - 1;
    forall k | 0 <= k < n
      ensures HasRoom(items, k) <==> HasRoom(items[..n], k)
    {
      assert items[..k] == items[..n][..k];
    }
  }

  /** A record is complete if and only if each item finds room behind all those before it; otherwise it
      is shorter. */
  lemma {:induction false} CompleteIff(items: seq<Item>)
    requires AllPassable(items)
    ensures |Fold(Put, "", items)| <= |RenderAll(items)|
    ensures Fold(Put, "", items) == RenderAll(items) <==> AllHaveRoom(items)
    ensures |Fold(Put, "", items)| == |RenderAll(items)| ==> AllHaveRoom(items)
  {
    if items != [] {
      var n := |items| - 1;
      CompleteIff(items[..n]);
      RecordsAreWhole(items[..n]);
      AllRoomSnoc(items);
      RoomIffFits(items[n], |Fold(Put, "", items[..n])|);
    }
  }

  /** What does not fit is not empty. */
  lemma RoomIffFits(item: Item, used: nat)
    requires Passable(item) && used < SMALL_BUFFER
    ensures Fits(item, used) <==> if item.Integer? then used + 32 <= 4000 else used + |Render(item)| < 4000
    ensures !Fits(item, used) ==> |Render(item)| > 0
  {
  }

  /** A record of at most 3968 characters loses nothing. */
  lemma {:induction false} ShortRecordsAreComplete(items: seq<Item>)
    requires AllPassable(items) && |RenderAll(items)| <= SMALL_BUFFER - MAX_NUMERIC_SIZE
    ensures Fold(Put, "", items) == RenderAll(items)
  {
    if items != [] {
      ShortRecordsAreComplete(items[..|items| - 1]);
    }
  }

  /** Every record a logger passes on is stored whole by the asynchronous logger. */
  lemma RecordIsAccepted(items: seq<Item>, s: P.State)
    requires AllPassable(items)
    ensures var record := Fold(Put, "", items);
            var t := P.AppendStep(s, record);
            t.current != [] && t.current[|t.current| - 1] == record
  {
    RecordsAreWhole(items);
    P.MessageIsAtomic(s, Fold(Put, "", items));
  }
}
