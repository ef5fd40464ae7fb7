/** Order messages of NASDAQ TotalView-ITCH 5.0, as bytes and as events. */
module ItchParserModel {
  import opened Types

  // ── big-endian numbers ──

  function Pow256(n: nat): nat {
    if n == 0 then 1 else 256 * Pow256(n - 1)
  }

  /** The value of a big-endian number. */
  function Big(b: seq<Byte>): (v: nat)
    ensures v < Pow256(|b|)
  {
    if b == [] then 0 else Big(b[..|b| - 1]) * 256 + b[|b| - 1]
  }

  function BigBytes(v: nat, n: nat): (b: seq<Byte>)
    ensures |b| == n
  {
    if n == 0 then [] else BigBytes(v / 256, n - 1) + [v % 256]
  }

  lemma {:induction false} BigRoundTrip(v: nat, n: nat)
    requires v < Pow256(n)
    ensures Big(BigBytes(v, n)) == v
  {
    if n > 0 {
      Split256(v, Pow256(n - 1));
      BigRoundTrip(v / 256, n - 1);
      BigSnoc(BigBytes(v / 256, n - 1), v % 256);
    }
  }

  lemma BigSnoc(b: seq<Byte>, r: Byte)
    ensures Big(b + [r]) == Big(b) * 256 + r
  {
    assert (b + [r])[..|b|] == b;
  }

  lemma Split256(v: nat, p: nat)
    requires v < 256 * p
    ensures v / 256 < p && v == v / 256 * 256 + v % 256
  {
  }

  lemma Widths()
    ensures Pow256(2) == 0x1_0000 && Pow256(4) == TWO32 && Pow256(8) == TWO64
  {
    assert Pow256(4) == 256 * Pow256(3);
    assert Pow256(6) == 256 * Pow256(5) && Pow256(8) == 256 * Pow256(7);
  }

  function ReadU16(m: seq<Byte>, at: nat): (v: u16)
    requires at + 2 <= |m|
  {
    (m[at] as int) * 256 + m[at + 1]
  }

  function ReadU32(m: seq<Byte>, at: nat): (v: u32)
    requires at + 4 <= |m|
  {
    (m[at] as int) * 0x100_0000 + (m[at + 1] as int) * 0x1_0000 + (m[at + 2] as int) * 0x100 + m[at + 3]
  }

  method ReadU64(m: seq<Byte>, at: nat) returns (v: u64)
    requires at + 8 <= |m|
    ensures v == Big(m[at..at + 8])
  {
    Widths();
    v := 0;
    var i := 0;
    while i < 8
      invariant 0 <= i <= 8 && v == Big(m[at..at + i])
    {
      assert m[at..at + i + 1][..i] == m[at..at + i];
      PowerGrows(i + 1, 8);
      v := (v as int) * 256 + m[at + i];
      i := i + 1;
    }
  }

  lemma {:induction false} PowerGrows(m: nat, n: nat)
    requires m <= n
    ensures Pow256(m) <= Pow256(n)
  {
    if m < n {
      PowerGrows(m, n - 1);
    }
  }

  lemma U16Value(m: seq<Byte>, at: nat)
    requires at + 2 <= |m|
    ensures ReadU16(m, at) == Big(m[at..at + 2])
  {
    var b := m[at..at + 2];
    assert b[..1][..0] == [];
  }

  lemma U32Value(m: seq<Byte>, at: nat)
    requires at + 4 <= |m|
    ensures ReadU32(m, at) == Big(m[at..at + 4])
  {
    var b := m[at..at + 4];
    assert b[..3][..2] == b[..2] && b[..2][..1] == b[..1] && b[..1][..0] == [];
    assert Big(b[..1]) == b[0];
    assert Big(b[..2]) == Big(b[..1]) * 256 + b[1];
    assert Big(b[..3]) == Big(b[..2]) * 256 + b[2];
  }

  function U64At(m: seq<Byte>, at: nat): u64
    requires at + 8 <= |m|
  {
    Widths();
    Big(m[at..at + 8])
  }

  // ── events ──

  datatype Event =
    | EvAdd(locate: u16, ref: u64, side: Side, price: u32, shares: u32)
    | EvDelete(locate: u16, ref: u64)
    | EvCancel(locate: u16, ref: u64, shares: u32)
    | EvReplace(locate: u16, ref: u64, newRef: u64, price: u32, shares: u32)
    | EvBook(locate: u16)

  const KIND_ADD: Byte := 'A' as int
  const KIND_ADD_MPID: Byte := 'F' as int
  const KIND_DELETE: Byte := 'D' as int
  const KIND_CANCEL: Byte := 'X' as int
  const KIND_REPLACE: Byte := 'U' as int
  const KIND_BOOK: Byte := 'Q' as int
  const KIND_DIRECTORY: Byte := 'R' as int
  const SELL_MARK: Byte := 'S' as int
  const BUY_MARK: Byte := 'B' as int
  const SPACE: Byte := ' ' as int

  /** Ten-thousandths of a dollar to cents, rounding down. */
  function Cents(ticks: u32): u32 {
    ticks / 100
  }

  /** The order or book event a message body stands for, if any. */
  function Parse(m: seq<Byte>): Option<Event> {
    if |m| < 3 then None
    else if (m[0] == KIND_ADD || m[0] == KIND_ADD_MPID) && |m| >= 36 then
      Some(EvAdd(ReadU16(m, 1), U64At(m, 11), if m[19] == SELL_MARK then Sell else Buy, Cents(ReadU32(m, 32)), ReadU32(m, 20)))
    else if m[0] == KIND_DELETE && |m| >= 19 then Some(EvDelete(ReadU16(m, 1), U64At(m, 11)))
    else if m[0] == KIND_CANCEL && |m| >= 23 then Some(EvCancel(ReadU16(m, 1), U64At(m, 11), ReadU32(m, 19)))
    else if m[0] == KIND_REPLACE && |m| >= 35 then
      Some(EvReplace(ReadU16(m, 1), U64At(m, 11), U64At(m, 19), Cents(ReadU32(m, 31)), ReadU32(m, 27)))
    else if m[0] == KIND_BOOK then Some(EvBook(ReadU16(m, 1)))
    else None
  }

  /** A stock directory message. */
  predicate IsDirectory(m: seq<Byte>) {
    |m| >= 19 && m[0] == KIND_DIRECTORY
  }

  /** s is the name in a fixed field: what comes before the first zero byte, without trailing spaces. */
  ghost predicate IsSymbol(field: seq<Byte>, s: seq<Byte>) {
    exists e :: NameEnds(field, s, e)
  }

  ghost predicate NameEnds(field: seq<Byte>, s: seq<Byte>, e: nat) {
    && |s| <= e <= |field| && s == field[..|s|]
    && (e < |field| ==> field[e] == 0) && (forall i :: 0 <= i < e ==> field[i] != 0)
    && (forall i :: |s| <= i < e ==> field[i] == SPACE)
    && (s != [] ==> s[|s| - 1] != SPACE)
  }

  lemma SymbolUnique(field: seq<Byte>, s: seq<Byte>, s': seq<Byte>)
    requires IsSymbol(field, s) && IsSymbol(field, s')
    ensures s == s'
  {
    var e :| NameEnds(field, s, e);
    var e' :| NameEnds(field, s', e');
    assert e == e';
    assert s != [] ==> s[|s| - 1] == field[|s| - 1];
    assert s' != [] ==> s'[|s'| - 1] == field[|s'| - 1];
  }

  /** A name padded with spaces to the field width is read back. */
  lemma PaddedSymbol(name: seq<Byte>, width: nat)
    requires |name| <= width && (forall i :: 0 <= i < |name| ==> name[i] != 0) && (name != [] ==> name[|name| - 1] != SPACE)
    ensures IsSymbol(name + seq(width - |name|, _ => SPACE), name)
  {
    var pad: seq<Byte> := seq(width - |name|, _ => SPACE);
    assert NameEnds(name + pad, name, width);
  }

  method ReadSymbol(field: seq<Byte>) returns (s: seq<Byte>)
    ensures IsSymbol(field, s)
  {
    var e := 0;
    while e < |field| && field[e] != 0
      invariant 0 <= e <= |field| && forall i :: 0 <= i < e ==> field[i] != 0
    {
      e := e + 1;
    }
    s := field[..e];
    while s != [] && (s[|s| - 1] == SPACE || s[|s| - 1] == 0)
      invariant |s| <= e && s == field[..|s|] && forall i :: |s| <= i < e ==> field[i] == SPACE
    {
      s := s[..|s| - 1];
    }
    assert NameEnds(field, s, e);
  }

  /** The symbol directory after a message. */
  ghost predicate Listed(symbols: map<seq<Byte>, u16>, symbols': map<seq<Byte>, u16>, m: seq<Byte>) {
    if IsDirectory(m)
    then exists s :: IsSymbol(m[11..19], s) && symbols' == if s == [] then symbols else symbols[s := ReadU16(m, 1)]
    else symbols' == symbols
  }

  class ItchParser {
    var symbols: map<seq<Byte>, u16>

    constructor ()
      ensures symbols == map[]
    {
      symbols := map[];
    }

    /** Classify one message body; a directory message only updates the symbol table. */
    method Feed(m: seq<Byte>) returns (r: Option<Event>)
      modifies this
      ensures r == Parse(m) && Listed(old(symbols), symbols, m)
    {
      if |m| < 3 {
        return None;
      }
      var mt := m[0];
      if mt == KIND_DIRECTORY {
        if |m| < 19 {
          return None;
        }
        var s := ReadSymbol(m[11..19]);
        if s != [] {
          symbols := symbols[s := ReadU16(m, 1)];
        }
        return None;
      }
      if mt == KIND_ADD || mt == KIND_ADD_MPID {
        if |m| < 36 {
          return None;
        }
        var ref := ReadU64(m, 11);
        return Some(EvAdd(ReadU16(m, 1), ref, if m[19] == SELL_MARK then Sell else Buy, Cents(ReadU32(m, 32)), ReadU32(m, 20)));
      } else if mt == KIND_DELETE {
        if |m| < 19 {
          return None;
        }
        var ref := ReadU64(m, 11);
        return Some(EvDelete(ReadU16(m, 1), ref));
      } else if mt == KIND_CANCEL {
        if |m| < 23 {
          return None;
        }
        var ref := ReadU64(m, 11);
        return Some(EvCancel(ReadU16(m, 1), ref, ReadU32(m, 19)));
      } else if mt == KIND_REPLACE {
        if |m| < 35 {
          return None;
        }
        var ref := ReadU64(m, 11);
        var newRef := ReadU64(m, 19);
        return Some(EvReplace(ReadU16(m, 1), ref, newRef, Cents(ReadU32(m, 31)), ReadU32(m, 27)));
      } else if mt == KIND_BOOK {
        return Some(EvBook(ReadU16(m, 1)));
      }
      return None;
    }
  }

  // ── message layouts, sections "Add Order Message" and "Modify Order Messages" of NASDAQ TotalView-ITCH 5.0 ──

  /** Type, stock locate, then tracking number and timestamp. */
  function Lead(kind: Byte, locate: u16, stamp: seq<Byte>): (b: seq<Byte>)
    requires |stamp| == 8
    ensures |b| == 11
  {
    [kind] + BigBytes(locate, 2) + stamp
  }

  /** attribution is empty for type A and the four-byte MPID for type F. */
  function AddMessage(kind: Byte, locate: u16, stamp: seq<Byte>, ref: u64, sell: bool, shares: u32, stock: seq<Byte>,
                      ticks: u32, attribution: seq<Byte>): seq<Byte>
    requires |stamp| == |stock| == 8
  {
    Lead(kind, locate, stamp) + BigBytes(ref, 8) + [if sell then SELL_MARK else BUY_MARK] + BigBytes(shares, 4) + stock
    + BigBytes(ticks, 4) + attribution
  }

  function DeleteMessage(locate: u16, stamp: seq<Byte>, ref: u64): seq<Byte>
    requires |stamp| == 8
  {
    Lead(KIND_DELETE, locate, stamp) + BigBytes(ref, 8)
  }

  function CancelMessage(locate: u16, stamp: seq<Byte>, ref: u64, shares: u32): seq<Byte>
    requires |stamp| == 8
  {
    Lead(KIND_CANCEL, locate, stamp) + BigBytes(ref, 8) + BigBytes(shares, 4)
  }

  function ReplaceMessage(locate: u16, stamp: seq<Byte>, ref: u64, newRef: u64, shares: u32, ticks: u32): seq<Byte>
    requires |stamp| == 8
  {
    Lead(KIND_REPLACE, locate, stamp) + BigBytes(ref, 8) + BigBytes(newRef, 8) + BigBytes(shares, 4) + BigBytes(ticks, 4)
  }

  lemma ReadsU16(m: seq<Byte>, at: nat, v: u16)
    requires at + 2 <= |m| && m[at..at + 2] == BigBytes(v, 2)
    ensures ReadU16(m, at) == v
  {
    Widths();
    BigRoundTrip(v, 2);
    U16Value(m, at);
  }

  lemma ReadsU32(m: seq<Byte>, at: nat, v: u32)
    requires at + 4 <= |m| && m[at..at + 4] == BigBytes(v, 4)
    ensures ReadU32(m, at) == v
  {
    Widths();
    BigRoundTrip(v, 4);
    U32Value(m, at);
  }

  lemma ReadsU64(m: seq<Byte>, at: nat, v: u64)
    requires at + 8 <= |m| && m[at..at + 8] == BigBytes(v, 8)
    ensures U64At(m, at) == v
  {
    Widths();
    BigRoundTrip(v, 8);
  }

  /** An add message, of either type, gives exactly its fields, with the price in whole cents. */
  lemma AddRoundTrip(kind: Byte, locate: u16, stamp: seq<Byte>, ref: u64, sell: bool, shares: u32, stock: seq<Byte>,
                     ticks: u32, attribution: seq<Byte>)
    requires |stamp| == |stock| == 8 && (kind == KIND_ADD || kind == KIND_ADD_MPID)
    ensures Parse(AddMessage(kind, locate, stamp, ref, sell, shares, stock, ticks, attribution)) ==
            Some(EvAdd(locate, ref, if sell then Sell else Buy, ticks / 100, shares))
  {
    hide BigBytes, ReadU16, ReadU32, U64At;
    var m := AddMessage(kind, locate, stamp, ref, sell, shares, stock, ticks, attribution);
    assert m[1..3] == BigBytes(locate, 2);
    ReadsU16(m, 1, locate);
    assert m[11..19] == BigBytes(ref, 8);
    ReadsU64(m, 11, ref);
    assert m[20..24] == BigBytes(shares, 4);
    ReadsU32(m, 20, shares);
    assert m[32..36] == BigBytes(ticks, 4);
    ReadsU32(m, 32, ticks);
  }

  lemma DeleteRoundTrip(locate: u16, stamp: seq<Byte>, ref: u64)
    requires |stamp| == 8
    ensures Parse(DeleteMessage(locate, stamp, ref)) == Some(EvDelete(locate, ref))
  {
    hide BigBytes, ReadU16, U64At;
    var m := DeleteMessage(locate, stamp, ref);
    assert m[1..3] == BigBytes(locate, 2);
    ReadsU16(m, 1, locate);
    assert m[11..19] == BigBytes(ref, 8);
    ReadsU64(m, 11, ref);
  }

  lemma CancelRoundTrip(locate: u16, stamp: seq<Byte>, ref: u64, shares: u32)
    requires |stamp| == 8
    ensures Parse(CancelMessage(locate, stamp, ref, shares)) == Some(EvCancel(locate, ref, shares))
  {
    hide BigBytes, ReadU16, ReadU32, U64At;
    var m := CancelMessage(locate, stamp, ref, shares);
    assert m[1..3] == BigBytes(locate, 2);
    ReadsU16(m, 1, locate);
    assert m[11..19] == BigBytes(ref, 8);
    ReadsU64(m, 11, ref);
    assert m[19..23] == BigBytes(shares, 4);
    ReadsU32(m, 19, shares);
  }

  lemma ReplaceRoundTrip(locate: u16, stamp: seq<Byte>, ref: u64, newRef: u64, shares: u32, ticks: u32)
    requires |stamp| == 8
    ensures Parse(ReplaceMessage(locate, stamp, ref, newRef, shares, ticks)) ==
            Some(EvReplace(locate, ref, newRef, ticks / 100, shares))
  {
    hide BigBytes, ReadU16, ReadU32, U64At;
    var m := ReplaceMessage(locate, stamp, ref, newRef, shares, ticks);
    assert m[1..3] == BigBytes(locate, 2);
    ReadsU16(m, 1, locate);
    assert m[11..19] == BigBytes(ref, 8);
    ReadsU64(m, 11, ref);
    assert m[19..27] == BigBytes(newRef, 8);
    ReadsU64(m, 19, newRef);
    assert m[27..31] == BigBytes(shares, 4);
    ReadsU32(m, 27, shares);
    assert m[31..35] == BigBytes(ticks, 4);
    ReadsU32(m, 31, ticks);
  }

  lemma BookRoundTrip(locate: u16, rest: seq<Byte>)
    ensures Parse([KIND_BOOK] + BigBytes(locate, 2) + rest) == Some(EvBook(locate))
  {
    hide BigBytes, ReadU16;
    var m := [KIND_BOOK] + BigBytes(locate, 2) + rest;
    assert m[1..3] == BigBytes(locate, 2);
    ReadsU16(m, 1, locate);
  }
}
