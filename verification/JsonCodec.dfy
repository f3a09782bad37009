/** The JSON writer and reader of module/src/codec/ngx_http_waf_json.c: ngx_http_waf_jw_t with its
    fixed buffer, and ngx_http_waf_jp_t with its position.
 */
module JsonCodec {
  import opened Bytes
  import opened JsonText
  import opened JsonGrammar
  import Utf8

  const MAX_DEPTH := 16

  // ---------------------------------------------------------------------------
  // Writer
  // ---------------------------------------------------------------------------

  class Writer {
    const buf: array<Byte>
    var pos: nat
    var overflow: bool

    ghost predicate Valid() reads this { pos <= buf.Length }

    ghost function Contents(): seq<Byte>
      requires Valid()
      reads this, buf
    {
      buf[..pos]
    }

    constructor (size: nat)
      ensures Valid() && fresh(buf) && buf.Length == size && Contents() == [] && !overflow
    {
      buf := new Byte[size];
      pos, overflow := 0, false;
    }

    // Appends all of data, or nothing and says so.
    method Raw(data: seq<Byte>)
      requires Valid()
      modifies this, buf
      ensures Valid()
      ensures Contents() == old(Contents()) + if |data| <= buf.Length - old(pos) then data else []
      ensures overflow == (old(overflow) || |data| > buf.Length - old(pos))
    {
      if buf.Length - pos < |data| {
        overflow := true;
        return;
      }
      ghost var before := buf[..pos];
      for i := 0 to |data|
        invariant pos == old(pos) && overflow == old(overflow) && buf[..pos] == before && buf[pos..pos + i] == data[..i]
      {
        buf[pos + i] := data[i];
      }
      pos := pos + |data|;
      assert buf[..pos] == before + data;
    }

    // One ASCII character, escaped; the writer gives up where the source returns at once.
    method Ascii(c: Byte) returns (stop: bool)
      requires Valid() && c < 0x80
      modifies this, buf
      ensures Valid()
      ensures Contents() == old(Contents()) + if |Escape(c)| <= buf.Length - old(pos) then Escape(c) else []
      ensures overflow == (old(overflow) || |Escape(c)| > buf.Length - old(pos))
      ensures stop ==> |Escape(c)| > buf.Length - old(pos)
    {
      stop := false;
      if c == QUOTE || c == BACKSLASH {
        if buf.Length - pos < 2 {
          overflow := true;
          return true;
        }
        Raw([BACKSLASH, c]);
      } else if c >= 0x20 {
        if pos == buf.Length {
          overflow := true;
          return true;
        }
        Raw([c]);
      } else {
        match c
        case 0x0a => Raw([BACKSLASH, 0x6e]);
        case 0x0d => Raw([BACKSLASH, 0x72]);
        case 0x09 => Raw([BACKSLASH, 0x74]);
        case 0x08 => Raw([BACKSLASH, 0x62]);
        case 0x0c => Raw([BACKSLASH, 0x66]);
        case _ =>
          if buf.Length - pos < 6 {
            overflow := true;
            return true;
          }
          Raw([BACKSLASH, 0x75, 0x30, 0x30, Nibble(c / 16), Nibble(c % 16)]);
      }
    }

    // The character data begins with, or U+FFFD for its ill-formed prefix; n is how much that was.
    method Next(data: seq<Byte>) returns (n: nat, stop: bool)
      requires Valid() && data != []
      modifies this, buf
      ensures Valid() && n == Item(data).1
      ensures Contents() == old(Contents()) + if |Item(data).0| <= buf.Length - old(pos) then Item(data).0 else []
      ensures overflow == (old(overflow) || |Item(data).0| > buf.Length - old(pos))
      ensures stop ==> |Item(data).0| > buf.Length - old(pos)
    {
      if data[0] < 0x80 {
        stop := Ascii(data[0]);
        return 1, stop;
      }
      var bad;
      n, bad := Utf8.Check(data);
      if n != 0 {
        Raw(data[..n]);
      } else {
        Raw(Utf8.REPLACEMENT);
        n := bad;
      }
      stop := false;
    }

    // done is what should have been appended so far.
    ghost predicate Progress(was: seq<Byte>, done: seq<Byte>, overflowed: bool)
      reads this, buf
    {
      && Valid()
      && if |was| + |done| <= buf.Length then Contents() == was + done && overflow == overflowed else overflow
    }

    // Appends the string whole exactly when it fits, and otherwise reports overflow.
    method String(data: seq<Byte>)
      requires Valid()
      modifies this, buf
      ensures Valid()
      ensures overflow == (old(overflow) || |Write(data)| > buf.Length - old(pos))
      ensures |Write(data)| <= buf.Length - old(pos) ==> Contents() == old(Contents()) + Write(data)
    {
      hide Item, Written;
      ghost var was := Contents();
      ghost var done := [QUOTE];
      Raw([QUOTE]);
      var i := 0;
      WriteStart(data);
      while i < |data|
        invariant i <= |data| && Write(data) == done + (Written(data[i..]) + [QUOTE])
        invariant Progress(was, done, old(overflow))
      {
        WriteStep(data, done, i);
        ghost var item := Item(data[i..]).0;
        var n, stop := Next(data[i..]);
        if stop {
          return;
        }
        done, i := done + item, i + n;
      }
      Raw([QUOTE]);
    }

    lemma {:induction false} WriteStart(data: seq<Byte>)
      ensures Write(data) == [QUOTE] + (Written(data[0..]) + [QUOTE])
      ensures Written(data[|data|..]) == []
    {
      assert data[0..] == data;
      hide Written;
    }

    lemma {:induction false} WriteStep(data: seq<Byte>, done: seq<Byte>, i: nat)
      requires i < |data| && Write(data) == done + (Written(data[i..]) + [QUOTE])
      ensures var item := Item(data[i..]);
              && Write(data) == (done + item.0) + (Written(data[i + item.1..]) + [QUOTE])
              && |Write(data)| > |done| + |item.0|
    {
      var item := Item(data[i..]);
      assert data[i..][item.1..] == data[i + item.1..];
      assert Written(data[i..]) == item.0 + Written(data[i + item.1..]);
      hide Written, Item, Write;
      Regroup(done, item.0, Written(data[i + item.1..]), [QUOTE]);
    }

    lemma {:induction false} Regroup(a: seq<Byte>, b: seq<Byte>, c: seq<Byte>, d: seq<Byte>)
      ensures a + ((b + c) + d) == (a + b) + (c + d)
    {}
  }

  // ---------------------------------------------------------------------------
  // Reader
  // ---------------------------------------------------------------------------

  datatype Rc = Ok | Error | Declined

  lemma {:induction false} DecimalGrows(t: seq<Byte>, k: nat)
    requires k <= |t| && Digits(t)
    ensures Decimal(t[..k]) <= Decimal(t)
    decreases |t|
  {
    if k == |t| {
      assert t[..k] == t;
    } else {
      var u := t[..|t| - 1];
      DecimalGrows(u, k);
      assert u[..k] == t[..k];
    }
  }

  class Reader {
    const data: seq<Byte>
    var pos: nat

    ghost predicate Valid() reads this { pos <= |data| }

    constructor (data: seq<Byte>)
      ensures Valid() && this.data == data && pos == 0
    {
      this.data, pos := data, 0;
    }

    method SkipWs()
      requires Valid()
      modifies this
      ensures Valid() && pos == Ws(data, old(pos))
    {
      while pos < |data|
        invariant Valid() && Ws(data, pos) == Ws(data, old(pos))
        decreases |data| - pos
      {
        var c := data[pos];
        if c != 0x20 && c != 0x09 && c != 0x0d && c != 0x0a {
          return;
        }
        pos := pos + 1;
      }
    }

    // -------------------------------------------------------------------------
    // Strings
    // -------------------------------------------------------------------------

    method ReadHex4() returns (ok: bool, v: nat)
      requires Valid()
      modifies this
      ensures Valid()
      ensures Hex4(data, old(pos)) == if ok then Some(v) else None
      ensures ok ==> pos == old(pos) + 4
    {
      v := 0;
      if |data| - pos < 4 {
        return false, v;
      }
      for i := 0 to 4
        invariant pos == old(pos) + i
        invariant forall k | old(pos) <= k < pos :: HexDigit(data[k])
        invariant v == HexPrefix(data[old(pos)..pos])
      {
        var c := data[pos];
        assert data[old(pos)..pos + 1] == data[old(pos)..pos] + [c];
        pos := pos + 1;
        if !HexDigit(c) {
          return false, v;
        }
        v := v * 16 + HexValue(c);
      }
      ghost var p := old(pos);
      Four(data[p..p + 4]);
      ok := true;
    }

    lemma {:induction false} Four(t: seq<Byte>)
      requires |t| == 4 && forall i | 0 <= i < |t| :: HexDigit(t[i])
      ensures HexPrefix(t) == ((HexValue(t[0]) * 16 + HexValue(t[1])) * 16 + HexValue(t[2])) * 16 + HexValue(t[3])
    {
      assert t[..3][..2] == t[..2] && t[..2][..1] == t[..1] && t[..1][..0] == [];
      assert HexPrefix(t[..1]) == HexValue(t[0]);
      assert HexPrefix(t[..2]) == HexPrefix(t[..1]) * 16 + HexValue(t[1]);
      assert HexPrefix(t[..3]) == HexPrefix(t[..2]) * 16 + HexValue(t[2]);
    }

    static ghost function HexPrefix(t: seq<Byte>): nat
      requires forall i | 0 <= i < |t| :: HexDigit(t[i])
    {
      if t == [] then 0 else HexPrefix(t[..|t| - 1]) * 16 + HexValue(t[|t| - 1])
    }

    // One character of a string, decoded.
    method Unit() returns (ok: bool, unit: seq<Byte>)
      requires pos < |data|
      modifies this
      ensures Valid()
      ensures ok <==> UnitAt(data, old(pos)).Some?
      ensures ok ==> UnitAt(data, old(pos)) == Some(Piece(pos, unit))
    {
      hide HexUnit;
      var c := data[pos];
      unit := [];
      if c < 0x20 {
        return false, unit;
      }
      if c >= 0x80 {
        var n, _ := Utf8.Check(data[pos..]);
        if n == 0 {
          return false, unit;
        }
        unit := data[pos..pos + n];
        pos := pos + n;
        return true, unit;
      }
      pos := pos + 1;
      if c != BACKSLASH {
        return true, [c];
      }
      if pos == |data| {
        return false, unit;
      }
      ok, unit := AfterBackslash();
    }

    method AfterBackslash() returns (ok: bool, unit: seq<Byte>)
      requires pos < |data|
      modifies this
      ensures Valid()
      ensures var c := data[old(pos)];
              if Short(c).Some? then ok && unit == [Short(c).value] && pos == old(pos) + 1
              else if c == 0x75 then HexUnit(data, old(pos) + 1) == if ok then Some(Piece(pos, unit)) else None
              else !ok
    {
      hide HexUnit;
      var c := data[pos];
      pos := pos + 1;
      match c
      case 0x22 => return true, [0x22];
      case 0x5c => return true, [0x5c];
      case 0x2f => return true, [0x2f];
      case 0x62 => return true, [0x08];
      case 0x66 => return true, [0x0c];
      case 0x6e => return true, [0x0a];
      case 0x72 => return true, [0x0d];
      case 0x74 => return true, [0x09];
      case 0x75 => ok, unit := Escaped();
      case _ => return false, [];
    }

    // jp_unit from after "\u" on.
    method Escaped() returns (ok: bool, unit: seq<Byte>)
      requires Valid()
      modifies this
      ensures Valid()
      ensures ok <==> HexUnit(data, old(pos)).Some?
      ensures ok ==> HexUnit(data, old(pos)) == Some(Piece(pos, unit))
    {
      hide Hex4, Utf8.Encode;
      var cp, low;
      ok, cp := ReadHex4();
      unit := [];
      if !ok {
        return;
      }
      if 0xdc00 <= cp <= 0xdfff {
        cp := 0xfffd;
      } else if 0xd800 <= cp <= 0xdbff {
        var save := pos;
        if |data| - pos >= 6 && data[pos] == BACKSLASH && data[pos + 1] == 0x75 {
          pos := pos + 2;
          ok, low := ReadHex4();
          if !ok {
            return;
          }
          if 0xdc00 <= low <= 0xdfff {
            cp := 0x10000 + (cp - 0xd800) * 1024 + (low - 0xdc00);
          } else {
            pos := save;
            cp := 0xfffd;
          }
        } else {
          cp := 0xfffd;
        }
      }
      unit := Utf8.Encode(cp);
    }

    ghost function Decoded(p: nat): Option<Piece>
      requires p <= |data|
    {
      var q := Ws(data, p);
      if Here(data, q, QUOTE) then Body(data, q + 1) else None
    }

    // Into a buffer of the caller's: Error if the text is no string, Declined if the string is
    // longer than the buffer. A string is read to its end, whether it fits or not.
    method StringBuf(buf: array<Byte>) returns (rc: Rc, len: nat)
      requires Valid()
      modifies this, buf
      ensures Valid() && len <= buf.Length
      ensures rc == Error <==> Decoded(old(pos)).None?
      ensures rc != Error ==> pos == Decoded(old(pos)).value.next
      ensures rc == Declined <==> rc != Error && |Decoded(old(pos)).value.bytes| > buf.Length
      ensures rc == Ok ==> buf[..len] == Decoded(old(pos)).value.bytes
    {
      SkipWs();
      len := 0;
      if pos == |data| || data[pos] != QUOTE {
        return Error, len;
      }
      pos := pos + 1;
      var full;
      rc, len, full := Units(buf);
      if rc == Ok && full {
        return Declined, 0;
      }
    }

    // The loop of jp_string_buf: to the closing quote, copying while there is room.
    method Units(buf: array<Byte>) returns (rc: Rc, len: nat, full: bool)
      requires Valid()
      modifies this, buf
      ensures Valid() && len <= buf.Length && rc != Declined
      ensures rc == Error <==> Body(data, old(pos)).None?
      ensures rc == Ok ==> pos == Body(data, old(pos)).value.next
      ensures rc == Ok ==> (full <==> |Body(data, old(pos)).value.bytes| > buf.Length)
      ensures rc == Ok && !full ==> buf[..len] == Body(data, old(pos)).value.bytes
    {
      hide Body, UnitAt, Ahead, Ws;
      ghost var start := pos;
      ghost var done: seq<Byte> := [];
      len, full := 0, false;
      AheadStart(pos);
      while true
        invariant start <= pos <= |data| && len <= buf.Length
        invariant Ahead(start, pos, done)
        invariant full <==> |done| > buf.Length
        invariant !full ==> buf[..len] == done
        decreases |data| - pos
      {
        AheadStep(start, pos, done);
        if pos == |data| {
          return Error, len, full;
        }
        if data[pos] == QUOTE {
          pos := pos + 1;
          return Ok, len, full;
        }
        var ok, unit := Unit();
        if !ok {
          return Error, len, full;
        }
        done := done + unit;
        if full || buf.Length - len < |unit| {
          full := true;
          continue;
        }
        Copy(buf, len, unit);
        len := len + |unit|;
      }
    }

    // What the string started at start decodes to is what was done and what is ahead.
    ghost predicate Ahead(start: nat, p: nat, done: seq<Byte>) {
      && start <= |data| && p <= |data|
      && Body(data, start) == match Body(data, p)
                              case None => None
                              case Some(rest) => Some(Piece(rest.next, done + rest.bytes))
    }

    lemma {:induction false} AheadStart(p: nat)
      requires p <= |data|
      ensures Ahead(p, p, [])
    {
      if Body(data, p).Some? {
        assert [] + Body(data, p).value.bytes == Body(data, p).value.bytes;
      }
    }

    lemma {:induction false} AheadStep(start: nat, p: nat, done: seq<Byte>)
      requires Ahead(start, p, done)
      ensures p == |data| ==> Body(data, start) == None
      ensures p < |data| && data[p] == QUOTE ==> Body(data, start) == Some(Piece(p + 1, done))
      ensures p < |data| && data[p] != QUOTE ==>
                match UnitAt(data, p)
                case None => Body(data, start) == None
                case Some(unit) => Ahead(start, unit.next, done + unit.bytes)
    {
      hide UnitAt;
      assert done + [] == done;
      if p < |data| && data[p] != QUOTE && UnitAt(data, p).Some? {
        var unit := UnitAt(data, p).value;
        if Body(data, unit.next).Some? {
          var rest := Body(data, unit.next).value;
          BodyStep(data, p, unit, rest);
          hide Body;
          assert done + (unit.bytes + rest.bytes) == (done + unit.bytes) + rest.bytes;
        }
      }
    }

    method Copy(buf: array<Byte>, at: nat, unit: seq<Byte>)
      requires at + |unit| <= buf.Length
      modifies buf
      ensures buf[..at + |unit|] == old(buf[..at]) + unit
    {
      for i := 0 to |unit|
        invariant buf[..at] == old(buf[..at]) && buf[at..at + i] == unit[..i]
      {
        buf[at + i] := unit[i];
      }
      assert buf[..at + |unit|] == buf[..at] + buf[at..at + |unit|];
    }

    // jp_string: the buffer is sized by the prescan, and is never too small.
    method String() returns (ok: bool, out: seq<Byte>)
      requires Valid()
      modifies this
      ensures Valid()
      ensures ok <==> Decoded(old(pos)).Some?
      ensures ok ==> Decoded(old(pos)) == Some(Piece(pos, out)) && Utf8.Valid(out)
    {
      hide Body;
      SkipWs();
      if pos == |data| || data[pos] != QUOTE {
        return false, [];
      }
      var start := pos + 1;
      var p := Prescan(start);
      if Body(data, start).Some? {
        ScanFindsTheQuote(data, start);
        DecodedIsUtf8(data, start);
      }
      if p == |data| {
        return false, [];
      }
      var dst := new Byte[p - start];
      var rc, len := StringBuf(dst);
      if rc == Ok {
        return true, dst[..len];
      }
      return false, [];
    }

    method Prescan(start: nat) returns (p: nat)
      requires start <= |data|
      ensures p == Scan(data, start)
    {
      p := start;
      while p < |data|
        invariant p <= |data| && Scan(data, p) == Scan(data, start)
        decreases |data| - p
      {
        if data[p] == QUOTE {
          break;
        }
        if data[p] == BACKSLASH {
          p := p + 1;
          if p == |data| {
            break;
          }
        }
        p := p + 1;
      }
    }

    method StringSkip() returns (ok: bool)
      requires Valid()
      modifies this
      ensures Valid()
      ensures StringAt(data, Ws(data, old(pos))) == if ok then Some(pos) else None
    {
      hide Body;
      var none := new Byte[0];
      var rc, _ := StringBuf(none);
      ok := rc != Error;
    }

    method KeySkip() returns (ok: bool)
      requires Valid()
      modifies this
      ensures Valid()
      ensures KeyAt(data, old(pos), true) == if ok then Some(pos) else None
    {
      ok := StringSkip();
      if !ok {
        return;
      }
      SkipWs();
      if pos == |data| || data[pos] != COLON {
        return false;
      }
      pos := pos + 1;
    }

    // -------------------------------------------------------------------------
    // Numbers and words
    // -------------------------------------------------------------------------

    method SkipDigits() returns (ok: bool)
      requires Valid()
      modifies this
      ensures Valid()
      ensures Digits1(data, old(pos)) == if ok then Some(pos) else None
    {
      var start := pos;
      while pos < |data| && 0x30 <= data[pos] <= 0x39
        invariant Valid() && start <= pos && Run(data, pos) == Run(data, start)
        decreases |data| - pos
      {
        pos := pos + 1;
      }
      ok := pos != start;
    }

    method NumberSkip() returns (ok: bool)
      requires Valid()
      modifies this
      ensures Valid()
      ensures NumberAt(data, old(pos)) == if ok then Some(pos) else None
    {
      hide Whole, Fraction, Exponent;
      ok := SkipWhole();
      if ok {
        ok := SkipFraction();
      }
      if ok {
        ok := SkipExponent();
      }
    }

    method SkipWhole() returns (ok: bool)
      requires Valid()
      modifies this
      ensures Valid()
      ensures Whole(data, old(pos)) == if ok then Some(pos) else None
    {
      if pos < |data| && data[pos] == 0x2d {
        pos := pos + 1;
      }
      if pos < |data| && data[pos] == 0x30 {
        pos := pos + 1;
        return true;
      }
      ok := SkipDigits();
    }

    method SkipFraction() returns (ok: bool)
      requires Valid()
      modifies this
      ensures Valid()
      ensures Fraction(data, old(pos)) == if ok then Some(pos) else None
    {
      ok := true;
      if pos < |data| && data[pos] == 0x2e {
        pos := pos + 1;
        ok := SkipDigits();
      }
    }

    method SkipExponent() returns (ok: bool)
      requires Valid()
      modifies this
      ensures Valid()
      ensures Exponent(data, old(pos)) == if ok then Some(pos) else None
    {
      ok := true;
      if pos < |data| && (data[pos] == 0x65 || data[pos] == 0x45) {
        pos := pos + 1;
        if pos < |data| && (data[pos] == 0x2b || data[pos] == 0x2d) {
          pos := pos + 1;
        }
        ok := SkipDigits();
      }
    }

    // The integer the digits from p on spell, unless a zero leads others, it is out of range or a
    // fraction or exponent follows.
    ghost function IntegerAt(p: nat, negative: bool): Option<(nat, int)>
      requires p <= |data|
    {
      var q := Run(data, p);
      if q == p || (data[p] == 0x30 && q > p + 1) || Decimal(data[p..q]) > MAX_INT then None
      else if Here(data, q, 0x2e) || Here(data, q, 0x65) || Here(data, q, 0x45) then None
      else Some((q, if negative then 0 - Decimal(data[p..q]) else Decimal(data[p..q])))
    }

    method Int() returns (ok: bool, out: int)
      requires Valid()
      modifies this
      ensures Valid()
      ensures var p := Ws(data, old(pos));
              var negative := Here(data, p, 0x2d);
              IntegerAt(if negative then p + 1 else p, negative) == if ok then Some((pos, out)) else None
    {
      hide Run, Decimal;
      SkipWs();
      var negative := false;
      if pos < |data| && data[pos] == 0x2d {
        negative := true;
        pos := pos + 1;
      }
      var v, digits;
      ok, v, digits := Magnitude();
      if !ok || digits == 0 {
        return false, 0;
      }
      if pos < |data| && (data[pos] == 0x2e || data[pos] == 0x65 || data[pos] == 0x45) {
        return false, 0;
      }
      return true, if negative then -v else v;
    }

    // The digits of an integer.
    method Magnitude() returns (ok: bool, v: int, digits: nat)
      requires Valid()
      modifies this
      ensures Valid()
      ensures var q := Run(data, old(pos));
              && Digits(data[old(pos)..q])
              && (ok <==> !(q > old(pos) + 1 && data[old(pos)] == 0x30) && Decimal(data[old(pos)..q]) <= MAX_INT)
              && (ok ==> pos == q && digits == q - old(pos) && v == Decimal(data[old(pos)..q]))
    {
      hide Run, Decimal;
      v, digits := 0, 0;
      ghost var start := pos;
      NoDigits(pos);
      while pos < |data|
        invariant start <= pos <= |data| && digits == pos - start && Run(data, pos) == Run(data, start)
        invariant Digits(data[start..pos])
        invariant v == Decimal(data[start..pos]) <= MAX_INT
        invariant digits > 1 ==> data[start] != 0x30
        decreases |data| - pos
      {
        var c := data[pos];
        if c < 0x30 || c > 0x39 {
          break;
        }
        DigitRead(start, pos);
        if digits == 1 && v == 0 {
          return false, v, digits;
        }
        var d := c - 0x30;
        if v > (MAX_INT - d) / 10 {
          return false, v, digits;
        }
        v := v * 10 + d;
        digits := digits + 1;
        pos := pos + 1;
      }
      EndOfRun(pos);
      ok := true;
    }

    lemma {:induction false} NoDigits(p: nat)
      requires p <= |data|
      ensures Digits(data[p..p]) && Decimal(data[p..p]) == 0
    {}

    lemma {:induction false} EndOfRun(p: nat)
      requires p <= |data| && (p < |data| ==> !Digit(data[p]))
      ensures Run(data, p) == p
    {}

    // One more digit is one more decimal place, and no later digit makes the number smaller.
    lemma {:induction false} DigitRead(start: nat, p: nat)
      requires start <= p < |data| && Digits(data[start..p]) && Digit(data[p])
      requires Run(data, p) == Run(data, start)
      ensures Decimal(data[start..p + 1]) == Decimal(data[start..p]) * 10 + data[p] as int - 0x30
      ensures Digits(data[start..p + 1]) && Digits(data[start..Run(data, start)])
      ensures Run(data, p + 1) == Run(data, start)
      ensures p + 1 <= Run(data, start) && Decimal(data[start..p + 1]) <= Decimal(data[start..Run(data, start)])
      ensures Decimal(data[start..p]) == 0 && p == start + 1 ==> data[start] == 0x30
      ensures p == start + 1 && data[start] == 0x30 ==> Decimal(data[start..p]) == 0
    {
      assert data[start..p + 1][..p - start] == data[start..p];
      var all := data[start..Run(data, start)];
      assert Run(data, p) >= p + 1;
      DecimalGrows(all, p + 1 - start);
      assert all[..p + 1 - start] == data[start..p + 1];
      if p == start + 1 {
        assert data[start..p][..0] == [];
        assert Decimal(data[start..p]) == data[start] as int - 0x30;
      }
    }

    method Literal(word: seq<Byte>) returns (ok: bool)
      requires Valid()
      modifies this
      ensures Valid()
      ensures WordAt(data, old(pos), word) == if ok then Some(pos) else None
      ensures !ok ==> pos == old(pos)
    {
      if |data| - pos < |word| || data[pos..pos + |word|] != word {
        return false;
      }
      pos := pos + |word|;
      ok := true;
    }

    // A string, word or number, by its first character.
    method Scalar() returns (ok: bool)
      requires pos < |data| && !Blank(data[pos]) && !IsOpener(data[pos])
      modifies this
      ensures Valid()
      ensures AtomAt(data, old(pos)) == if ok then Some(pos) else None
    {
      var c := data[pos];
      match c
      case 0x22 => ok := StringSkip();
      case 0x74 => ok := Bool();
      case 0x66 => ok := Bool();
      case 0x6e => ok := Literal(NULL);
      case _ =>
        if c != 0x2d && (c < 0x30 || c > 0x39) {
          return false;
        }
        ok := NumberSkip();
    }

    method Bool() returns (ok: bool)
      requires pos < |data| && (data[pos] == 0x74 || data[pos] == 0x66)
      modifies this
      ensures Valid()
      ensures WordAt(data, old(pos), if data[old(pos)] == 0x74 then TRUE else FALSE) == if ok then Some(pos) else None
    {
      SkipWs();
      ok := Literal(TRUE);
      if !ok {
        ok := Literal(FALSE);
      }
    }

    // -------------------------------------------------------------------------
    // jp_skip
    // -------------------------------------------------------------------------

    // What is left to read once a value ended at p, inside the brackets on the stack.
    ghost function Finish(p: nat, stack: seq<bool>): Option<nat>
      requires p <= |data| && |stack| <= MAX_DEPTH
      decreases |stack|
    {
      if stack == [] then Some(p)
      else
        var n := |stack| - 1;
        match RestAt(data, p, stack[n], MAX_DEPTH - |stack|)
        case None => None
        case Some(q) => Finish(q, stack[..n])
    }

    // What is left to read when a value starts at p.
    ghost function Begin(p: nat, stack: seq<bool>): Option<nat>
      requires p <= |data| && |stack| <= MAX_DEPTH
    {
      match ValueAt(data, p, MAX_DEPTH - |stack|)
      case None => None
      case Some(q) => Finish(q, stack)
    }

    // The closing brackets on the stack, braces as true.
    static ghost function Braces(stack: seq<Byte>): (b: seq<bool>)
      ensures |b| == |stack|
    {
      seq(|stack|, i requires 0 <= i < |stack| => stack[i] == CLOSE_OBJECT)
    }

    static ghost predicate Closers(stack: seq<Byte>) {
      forall i | 0 <= i < |stack| :: stack[i] == CLOSE_OBJECT || stack[i] == CLOSE_ARRAY
    }

    // Reading a value at p with the stack: the cases of the outer loop.
    lemma {:induction false} BeginValue(p: nat, stack: seq<bool>)
      requires p <= |data| && |stack| <= MAX_DEPTH
      ensures var q := Ws(data, p);
              && (q == |data| ==> Begin(p, stack) == None)
              && (q < |data| && !IsOpener(data[q]) ==>
                    Begin(p, stack) == match AtomAt(data, q) case None => None case Some(v) => Finish(v, stack))
              && (q < |data| && IsOpener(data[q]) && |stack| == MAX_DEPTH ==> Begin(p, stack) == None)
    {}

    lemma {:induction false} BeginBracket(p: nat, stack: seq<bool>)
      requires p <= |data| && |stack| < MAX_DEPTH
      requires Ws(data, p) < |data| && IsOpener(data[Ws(data, p)])
      ensures var q := Ws(data, p);
              var braced, r := data[q] == OPEN_OBJECT, Ws(data, q + 1);
              && (Here(data, r, Closer(braced)) ==> Begin(p, stack) == Finish(r + 1, stack))
              && (!Here(data, r, Closer(braced)) ==> Begin(p, stack) == Inside(r, stack + [braced]))
    {
      hide Ws, ItemsAt, AtomAt, KeyAt, Finish, Inside;
      var q := Ws(data, p);
      var braced, r := data[q] == OPEN_OBJECT, Ws(data, q + 1);
      assert (stack + [braced])[..|stack|] == stack;
      InsideIs(r, stack + [braced]);
    }

    // A key if the innermost bracket is a brace, then a value.
    ghost function Inside(p: nat, stack: seq<bool>): Option<nat>
      requires p <= |data| && 0 < |stack| <= MAX_DEPTH
    {
      match KeyAt(data, p, stack[|stack| - 1])
      case None => None
      case Some(k) => Begin(k, stack)
    }

    lemma {:induction false} InsideIs(p: nat, stack: seq<bool>)
      requires p <= |data| && 0 < |stack| <= MAX_DEPTH
      ensures var n := |stack| - 1;
              Inside(p, stack) == match ItemsAt(data, p, stack[n], MAX_DEPTH - |stack|)
                                  case None => None
                                  case Some(q) => Finish(q, stack[..n])
    {}

    // After a value, inside the innermost bracket: the cases of the inner loop.
    lemma {:induction false} FinishStep(p: nat, stack: seq<bool>)
      requires p <= |data| && 0 < |stack| <= MAX_DEPTH
      ensures var q, n := Ws(data, p), |stack| - 1;
              && (Here(data, q, Closer(stack[n])) ==> Finish(p, stack) == Finish(q + 1, stack[..n]))
              && (!Here(data, q, Closer(stack[n])) && Here(data, q, COMMA) ==> Finish(p, stack) == Inside(q + 1, stack))
              && (!Here(data, q, Closer(stack[n])) && !Here(data, q, COMMA) ==> Finish(p, stack) == None)
    {
      hide Finish, Inside, ItemsAt, RestAt, Ws;
      FinishIs(p, stack);
      RestIs(data, p, stack[|stack| - 1], MAX_DEPTH - |stack|);
      if Here(data, Ws(data, p), COMMA) {
        InsideIs(Ws(data, p) + 1, stack);
      }
    }

    lemma {:induction false} FinishIs(p: nat, stack: seq<bool>)
      requires p <= |data| && 0 < |stack| <= MAX_DEPTH
      ensures var n := |stack| - 1;
              Finish(p, stack) == match RestAt(data, p, stack[n], MAX_DEPTH - |stack|)
                                  case None => None
                                  case Some(q) => Finish(q, stack[..n])
    {}

    lemma {:induction false} Pushed(stack: seq<Byte>, was: seq<Byte>, c: Byte)
      requires Closers(was) && IsOpener(c) && stack == was + [if c == OPEN_OBJECT then CLOSE_OBJECT else CLOSE_ARRAY]
      ensures Closers(stack) && Braces(stack) == Braces(was) + [c == OPEN_OBJECT]
      ensures stack[|stack| - 1] == Closer(c == OPEN_OBJECT)
    {}

    lemma {:induction false} Popped(stack: seq<Byte>, n: nat)
      requires n <= |stack| && Closers(stack)
      ensures Closers(stack[..n]) && Braces(stack[..n]) == Braces(stack)[..n]
      ensures n < |stack| ==> stack[n] == Closer(Braces(stack)[n])
    {}

    // The inner loop: closes brackets until one goes on (more) or all are closed.
    method Unwind(stack: array<Byte>, nested: nat) returns (ok: bool, more: bool, depth: nat)
      requires Valid() && nested <= MAX_DEPTH == stack.Length && Closers(stack[..nested])
      modifies this
      ensures Valid() && depth <= nested && Closers(stack[..depth])
      ensures var end := Finish(old(pos), Braces(stack[..nested]));
              if more then end == Begin(pos, Braces(stack[..depth])) && old(pos) < pos
              else end == if ok then Some(pos) else None
    {
      hide ValueAt, RestAt, AtomAt, KeyAt, Finish, Begin;
      depth := nested;
      ghost var end := Finish(pos, Braces(stack[..nested]));
      while true
        invariant Valid() && old(pos) <= pos && depth <= nested && Closers(stack[..depth])
        invariant end == Finish(pos, Braces(stack[..depth]))
        decreases |data| - pos
      {
        if depth == 0 {
          FinishAll(pos, Braces(stack[..0]));
          return true, false, depth;
        }
        FinishStep(pos, Braces(stack[..depth]));
        Popped(stack[..depth], depth - 1);
        assert stack[..depth][..depth - 1] == stack[..depth - 1];
        SkipWs();
        if pos == |data| {
          return false, false, depth;
        }
        if data[pos] == stack[depth - 1] {
          pos := pos + 1;
          depth := depth - 1;
          continue;
        }
        if data[pos] != COMMA {
          return false, false, depth;
        }
        pos := pos + 1;
        ok := KeyIfBraced(stack[depth - 1] == CLOSE_OBJECT, Braces(stack[..depth]));
        return ok, ok, depth;
      }
    }

    lemma {:induction false} FinishAll(p: nat, stack: seq<bool>)
      requires p <= |data| && stack == []
      ensures Finish(p, stack) == Some(p)
    {}

    // jp_key_skip where members are named.
    method KeyIfBraced(braced: bool, ghost stack: seq<bool>) returns (ok: bool)
      requires Valid() && 0 < |stack| <= MAX_DEPTH && stack[|stack| - 1] == braced
      modifies this
      ensures Valid() && (ok ==> old(pos) <= pos)
      ensures Inside(old(pos), stack) == if ok then Begin(pos, stack) else None
    {
      ok := true;
      if braced {
        ok := KeySkip();
      }
    }

    // Exactly one value, read with a stack of MAX_DEPTH closing brackets.
    method Skip() returns (ok: bool)
      requires Valid()
      modifies this
      ensures Valid()
      ensures ValueAt(data, old(pos), MAX_DEPTH) == if ok then Some(pos) else None
    {
      hide ValueAt, RestAt, AtomAt, KeyAt, Finish;
      var stack := new Byte[MAX_DEPTH];
      var depth := 0;
      ghost var end := ValueAt(data, pos, MAX_DEPTH);
      StartSkip(pos, Braces(stack[..0]));
      while true
        invariant Valid() && 0 <= depth <= MAX_DEPTH && Closers(stack[..depth])
        invariant end == Begin(pos, Braces(stack[..depth]))
        decreases |data| - pos
      {
        ghost var start := pos;
        var more;
        ok, more, depth := Value(stack, depth);
        if !more {
          return;
        }
        if ok {
          ok, more, depth := Unwind(stack, depth);
          if !more {
            return;
          }
        }
      }
    }

    lemma {:induction false} StartSkip(p: nat, stack: seq<bool>)
      requires p <= |data| && stack == []
      ensures Begin(p, stack) == ValueAt(data, p, MAX_DEPTH)
    {}

    // The switch of the outer loop: a whole value (ok), an opened bracket (more), or an error.
    method Value(stack: array<Byte>, nested: nat) returns (ok: bool, more: bool, depth: nat)
      requires Valid() && nested <= MAX_DEPTH == stack.Length && Closers(stack[..nested])
      modifies this, stack
      ensures Valid() && depth <= MAX_DEPTH && Closers(stack[..depth])
      ensures more ==> old(pos) < pos
      ensures old(Begin(pos, Braces(stack[..nested])))
           == if !more then None
              else if ok then Finish(pos, Braces(stack[..depth]))
              else Begin(pos, Braces(stack[..depth]))
      ensures !more ==> !ok
    {
      hide ValueAt, RestAt, AtomAt, KeyAt, Finish, Begin, Ws;
      ghost var was := Braces(stack[..nested]);
      BeginValue(pos, was);
      ghost var start := pos;
      SkipWs();
      if pos == |data| {
        return false, false, nested;
      }
      var c := data[pos];
      if c != OPEN_OBJECT && c != OPEN_ARRAY {
        ok := Scalar();
        return ok, ok, nested;
      }
      if nested == MAX_DEPTH {
        return false, false, nested;
      }
      BeginBracket(start, was);
      ok, more, depth := Bracket(stack, nested);
    }

    // An opening bracket: closed at once, or left open with its first key read.
    method Bracket(stack: array<Byte>, nested: nat) returns (ok: bool, more: bool, depth: nat)
      requires nested < MAX_DEPTH == stack.Length && Closers(stack[..nested]) && pos < |data| && IsOpener(data[pos])
      modifies this, stack
      ensures Valid() && depth <= MAX_DEPTH && Closers(stack[..depth])
      ensures more ==> old(pos) < pos
      ensures var braced, r := data[old(pos)] == OPEN_OBJECT, Ws(data, old(pos) + 1);
              var was := old(Braces(stack[..nested]));
              (if Here(data, r, Closer(braced)) then Finish(r + 1, was) else Inside(r, was + [braced]))
              == if !more then None
                 else if ok then Finish(pos, Braces(stack[..depth]))
                 else Begin(pos, Braces(stack[..depth]))
      ensures !more ==> !ok
    {
      hide ValueAt, RestAt, AtomAt, KeyAt, Finish, Begin, Ws, Inside;
      ghost var was := stack[..nested];
      var c := data[pos];
      stack[nested] := if c == OPEN_OBJECT then CLOSE_OBJECT else CLOSE_ARRAY;
      depth := nested + 1;
      assert stack[..nested] == was && stack[..depth] == was + [stack[nested]];
      Pushed(stack[..depth], was, c);
      pos := pos + 1;
      SkipWs();
      if pos < |data| && data[pos] == stack[depth - 1] {
        pos := pos + 1;
        depth := depth - 1;
        return true, true, depth;
      }
      var key := KeyIfBraced(c == OPEN_OBJECT, Braces(stack[..depth]));
      return false, key, depth;
    }
  }
}
