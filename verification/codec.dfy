/** The table-driven codecs of `Transmission/transmission_lib.py`, which
    `Lib/Transmission_Lib.py` repeats line for line: text to binary digits
    and back, binary digits to QPSK phases and back, and the quantiser that
    rounds detected phases to the four QPSK phases.
 */
module Codec {
  import opened Wrappers

  /** The exceptions the codecs raise: ValueError from an explicit length
      check, KeyError from a dictionary lookup that misses, TypeError from a
      lookup keyed by a list slice (a list is not hashable). */
  datatype Error = ValueError | KeyError | TypeError

  // ------------------------------------------------------- binary digits

  predicate IsBit(c: char) {
    c == '0' || c == '1'
  }

  predicate AllBits(t: string) {
    forall i :: 0 <= i < |t| ==> IsBit(t[i])
  }

  function Pow2(n: nat): (p: nat)
    ensures p >= 1
  {
    if n == 0 then 1 else 2 * Pow2(n - 1)
  }

  /** `bin(n)[2:].zfill(w)` for `n < 2^w`: the `w` binary digits of `n`,
      most significant first. */
  function BinaryText(n: nat, w: nat): (t: string)
    requires n < Pow2(w)
    ensures |t| == w && AllBits(t)
  {
    if w == 0 then [] else BinaryText(n / 2, w - 1) + [if n % 2 == 0 then '0' else '1']
  }

  /** The number a string of binary digits spells, most significant first. */
  function BinaryValue(t: string): (n: nat)
    requires AllBits(t)
    ensures n < Pow2(|t|)
  {
    if |t| == 0 then 0 else 2 * BinaryValue(t[..|t| - 1]) + (if t[|t| - 1] == '1' then 1 else 0)
  }

  /** Reading back the digits of a number below 2^w gives the number. */
  lemma {:induction false} ValueOfText(n: nat, w: nat)
    requires n < Pow2(w)
    ensures BinaryValue(BinaryText(n, w)) == n
    decreases w
  {
    if w > 0 {
      var t := BinaryText(n, w);
      assert t[..w - 1] == BinaryText(n / 2, w - 1);
      ValueOfText(n / 2, w - 1);
    }
  }

  /** Writing out the value of a string of binary digits gives the string. */
  lemma {:induction false} TextOfValue(t: string)
    requires AllBits(t)
    ensures BinaryText(BinaryValue(t), |t|) == t
    decreases |t|
  {
    if |t| > 0 {
      var w := |t|;
      var u := t[..w - 1];
      var v := BinaryValue(t);
      var b := if t[w - 1] == '1' then 1 else 0;
      assert v == 2 * BinaryValue(u) + b;
      assert v / 2 == BinaryValue(u) && v % 2 == b;
      TextOfValue(u);
      assert BinaryText(v, w) == BinaryText(v / 2, w - 1) + [if v % 2 == 0 then '0' else '1'];
      assert t == u + [t[w - 1]];
    }
  }

  /** A string of binary digits spells a number below half its range exactly
      when it starts with '0'. */
  lemma {:induction false} LeadingDigit(t: string)
    requires AllBits(t) && |t| > 0
    ensures BinaryValue(t) < Pow2(|t| - 1) <==> t[0] == '0'
    decreases |t|
  {
    if |t| > 1 {
      var u := t[..|t| - 1];
      assert u[0] == t[0];
      LeadingDigit(u);
    }
  }

  // ------------------------------------------------------- dictionaries

  /** The dict a comprehension builds from its key-value pairs, inserted in
      order (a later pair overrides an earlier one with the same key). */
  function DictOf<K, V>(pairs: seq<(K, V)>): (d: map<K, V>) {
    if |pairs| == 0 then map[] else DictOf(pairs[..|pairs| - 1])[pairs[|pairs| - 1].0 := pairs[|pairs| - 1].1]
  }

  /** The keys of the dict are the keys of the pairs. */
  lemma {:induction false} DictOfKeys<K, V>(pairs: seq<(K, V)>, k: K)
    ensures k in DictOf(pairs) <==> exists j :: 0 <= j < |pairs| && pairs[j].0 == k
    decreases |pairs|
  {
    if |pairs| > 0 {
      var init := pairs[..|pairs| - 1];
      DictOfKeys(init, k);
      if k in DictOf(init) {
        var j :| 0 <= j < |init| && init[j].0 == k;
        assert pairs[j].0 == k;
      }
      if k != pairs[|pairs| - 1].0 && exists j :: 0 <= j < |pairs| && pairs[j].0 == k {
        var j :| 0 <= j < |pairs| && pairs[j].0 == k;
        assert init[j].0 == k;
      }
    }
  }

  predicate DistinctKeys<K(==), V>(pairs: seq<(K, V)>) {
    forall i, j :: 0 <= i < j < |pairs| ==> pairs[i].0 != pairs[j].0
  }

  /** When no key repeats, every pair is an entry of the dict. */
  lemma {:induction false} DictOfAt<K, V>(pairs: seq<(K, V)>, j: nat)
    requires DistinctKeys(pairs) && j < |pairs|
    ensures pairs[j].0 in DictOf(pairs) && DictOf(pairs)[pairs[j].0] == pairs[j].1
    decreases |pairs|
  {
    if j < |pairs| - 1 {
      var init := pairs[..|pairs| - 1];
      assert init[j] == pairs[j];
      DictOfAt(init, j);
    }
  }

  // ----------------------------------------------- text and binary digits

  /** Characters below 128: the keys of dict_ascii_to_bin. */
  predicate IsAscii(t: string) {
    forall i :: 0 <= i < |t| ==> t[i] as int < 128
  }

  /** Eight binary digits starting with '0': the keys of dict_bin_to_ascii. */
  predicate IsByteText(t: string) {
    |t| == 8 && AllBits(t) && t[0] == '0'
  }

  /** The pairs `(chr(i), bin(i)[2:].zfill(8))` for `i in range(128)`. */
  function AsciiPairs(): (pairs: seq<(char, string)>)
    ensures |pairs| == 128
  {
    seq(128, i requires 0 <= i < 128 => (i as char, BinaryText(i, 8)))
  }

  /** The pairs `(bin(i)[2:].zfill(8), chr(i))` for `i in range(128)`. */
  function ByteTextPairs(): (pairs: seq<(string, char)>)
    ensures |pairs| == 128
  {
    seq(128, i requires 0 <= i < 128 => (BinaryText(i, 8), i as char))
  }

  /** dict_ascii_to_bin. */
  function AsciiToBinTable(): (m: map<char, string>) {
    DictOf(AsciiPairs())
  }

  /** dict_bin_to_ascii. */
  function BinToAsciiTable(): (m: map<string, char>) {
    DictOf(ByteTextPairs())
  }

  /** The keys of dict_ascii_to_bin are the characters below 128, and each
      maps to the eight binary digits of its code. */
  lemma AsciiToBinEntry(c: char)
    ensures c in AsciiToBinTable() <==> c as int < 128
    ensures c in AsciiToBinTable() ==> AsciiToBinTable()[c] == BinaryText(c as int, 8)
  {
    DictOfKeys(AsciiPairs(), c);
    if c as int < 128 {
      assert AsciiPairs()[c as int].0 == c;
      DictOfAt(AsciiPairs(), c as int);
    }
  }

  /** The keys of dict_bin_to_ascii are the eight-digit binary texts starting
      with '0', and each maps to the character whose code it spells. */
  lemma BinToAsciiEntry(t: string)
    ensures t in BinToAsciiTable() <==> IsByteText(t)
    ensures t in BinToAsciiTable() ==> BinToAsciiTable()[t] as int == BinaryValue(t)
  {
    var pairs := ByteTextPairs();
    DictOfKeys(pairs, t);
    forall i, j | 0 <= i < j < |pairs|
      ensures pairs[i].0 != pairs[j].0
    {
      ValueOfText(i, 8);
      ValueOfText(j, 8);
    }
    if t in BinToAsciiTable() {
      var j :| 0 <= j < |pairs| && pairs[j].0 == t;
      ValueOfText(j, 8);
      LeadingDigit(t);
      DictOfAt(pairs, j);
    }
    if IsByteText(t) {
      LeadingDigit(t);
      TextOfValue(t);
      assert pairs[BinaryValue(t)].0 == t;
    }
  }

  // -------------------------------------------------- chunks and joining

  /** `"".join(parts)`. */
  function Join(parts: seq<string>): (t: string) {
    if |parts| == 0 then [] else parts[0] + Join(parts[1..])
  }

  /** The slices `t[w*i : w*(i+1)]` for `i in range(n)`, in order. */
  function Chunks(t: string, w: nat, n: nat): (cs: seq<string>)
    requires w * n <= |t|
    ensures |cs| == n
    ensures forall i :: 0 <= i < n ==> |cs[i]| == w
    ensures AllBits(t) ==> forall i :: 0 <= i < n ==> AllBits(cs[i])
    decreases n
  {
    if n == 0 then [] else
      assert w * n == w + w * (n - 1);
      [t[..w]] + Chunks(t[w..], w, n - 1)
  }

  /** The `i`-th chunk is the slice `t[w*i : w*(i+1)]`. */
  lemma {:induction false} ChunkAt(t: string, w: nat, n: nat, i: nat)
    requires w * n <= |t| && i < n
    ensures w * i + w <= |t|
    ensures Chunks(t, w, n)[i] == t[w * i .. w * i + w]
    decreases n
  {
    if i > 0 {
      assert w * i == w + w * (i - 1) && w * n == w + w * (n - 1);
      ChunkAt(t[w..], w, n - 1, i - 1);
    }
  }

  /** Joining the `n` chunks of a string of length `w * n` gives the string
      back. */
  lemma {:induction false} JoinChunks(t: string, w: nat, n: nat)
    requires |t| == w * n
    ensures Join(Chunks(t, w, n)) == t
    decreases n
  {
    if n > 0 {
      assert w * n == w + w * (n - 1);
      JoinChunks(t[w..], w, n - 1);
      assert t == t[..w] + t[w..];
    }
  }

  /** Cutting the join of `w`-character parts into chunks of `w` gives the
      parts back. */
  lemma {:induction false} ChunksJoin(parts: seq<string>, w: nat)
    requires forall i :: 0 <= i < |parts| ==> |parts[i]| == w
    ensures |Join(parts)| == w * |parts|
    ensures Chunks(Join(parts), w, |parts|) == parts
    decreases |parts|
  {
    if |parts| > 0 {
      ChunksJoin(parts[1..], w);
      var t := Join(parts);
      assert t[..w] == parts[0];
      assert t[w..] == Join(parts[1..]);
      assert parts == [parts[0]] + parts[1..];
    }
  }

  /** Two strings of length `w * n` with the same chunks are equal. */
  lemma SameChunks(a: string, b: string, w: nat, n: nat)
    requires |a| == w * n && |b| == w * n
    requires Chunks(a, w, n) == Chunks(b, w, n)
    ensures a == b
  {
    JoinChunks(a, w, n);
    JoinChunks(b, w, n);
  }

  /** A string of length `w * n` whose chunks are all binary digits is all
      binary digits (the converse is part of the contract of Chunks). */
  lemma {:induction false} ChunksAllBits(t: string, w: nat, n: nat)
    requires |t| == w * n
    ensures (forall i :: 0 <= i < n ==> AllBits(Chunks(t, w, n)[i])) ==> AllBits(t)
    decreases n
  {
    if n > 0 {
      assert w * n == w + w * (n - 1);
      ChunksAllBits(t[w..], w, n - 1);
      var cs := Chunks(t, w, n);
      var rest := Chunks(t[w..], w, n - 1);
      assert cs[1..] == rest;
      if forall i :: 0 <= i < n ==> AllBits(cs[i]) {
        assert AllBits(cs[0]);
        forall i | 0 <= i < n - 1
          ensures AllBits(rest[i])
        {
          assert rest[i] == cs[i + 1];
        }
        assert cs[0] == t[..w];
        forall k | 0 <= k < |t|
          ensures IsBit(t[k])
        {
          if k >= w {
            assert t[k] == t[w..][k - w];
          } else {
            assert t[k] == cs[0][k];
          }
        }
      }
    } else {
      assert w * n == 0;
    }
  }

  // ---------------------------------------------------- convert_ascii_bin

  /** The eight-digit chunks `t[8*i : 8*(i+1)]` for `i in range(len(t) // 8)`. */
  function ByteChunks(t: string): (cs: seq<string>)
    ensures |cs| == |t| / 8
  {
    Chunks(t, 8, |t| / 8)
  }

  /** convert_ascii_bin(message, 1): the eight binary digits of each
      character, joined; KeyError as soon as a character is not a key. */
  function AsciiToBin(message: string): (r: Result<string, Error>)
    ensures r.Ok? <==> IsAscii(message)
    ensures r.Err? ==> r.error == KeyError
    ensures r.Ok? ==>
              && |r.value| == 8 * |message|
              && AllBits(r.value)
              && forall i :: 0 <= i < |message| ==> BinaryValue(ByteChunks(r.value)[i]) == message[i] as int
  {
    if forall i :: 0 <= i < |message| ==> message[i] in AsciiToBinTable() then
      var parts := seq(|message|, i requires 0 <= i < |message| && message[i] in AsciiToBinTable() =>
                                    AsciiToBinTable()[message[i]]);
      forall i | 0 <= i < |message|
        ensures message[i] as int < 128 && parts[i] == BinaryText(message[i] as int, 8)
        ensures BinaryValue(parts[i]) == message[i] as int
      {
        AsciiToBinEntry(message[i]);
        ValueOfText(message[i] as int, 8);
      }
      ChunksJoin(parts, 8);
      var bits := Join(parts);
      assert ByteChunks(bits) == parts;
      ChunksAllBits(bits, 8, |parts|);
      Ok(bits)
    else
      var i :| 0 <= i < |message| && message[i] !in AsciiToBinTable();
      AsciiToBinEntry(message[i]);
      Err(KeyError)
  }

  /** convert_ascii_bin(message, 2): ValueError unless the length is a
      multiple of 8; otherwise the character of each eight-digit chunk, and
      KeyError as soon as a chunk is not a key. */
  function BinToAscii(bits: string): (r: Result<string, Error>)
    ensures r.Err? ==> r.error != TypeError
    ensures r == Err(ValueError) <==> |bits| % 8 != 0
    ensures r == Err(KeyError) <==>
              |bits| % 8 == 0 && exists i :: 0 <= i < |bits| / 8 && !IsByteText(ByteChunks(bits)[i])
    ensures r.Ok? ==>
              && |r.value| == |bits| / 8
              && forall i :: 0 <= i < |bits| / 8 ==>
                   IsByteText(ByteChunks(bits)[i]) && r.value[i] as int == BinaryValue(ByteChunks(bits)[i])
  {
    if |bits| % 8 != 0 then Err(ValueError)
    else
      var cs := ByteChunks(bits);
      if forall i :: 0 <= i < |cs| ==> cs[i] in BinToAsciiTable() then
        forall i | 0 <= i < |cs|
          ensures IsByteText(cs[i]) && BinToAsciiTable()[cs[i]] as int == BinaryValue(cs[i])
        {
          BinToAsciiEntry(cs[i]);
        }
        Ok(seq(|cs|, i requires 0 <= i < |cs| && cs[i] in BinToAsciiTable() => BinToAsciiTable()[cs[i]]))
      else
        var i :| 0 <= i < |cs| && cs[i] !in BinToAsciiTable();
        BinToAsciiEntry(cs[i]);
        Err(KeyError)
  }

  /** A returned value, wrapped as a Python return value that may be None. */
  function Lift<T>(r: Result<T, Error>): (s: Result<Option<T>, Error>)
    ensures s.Ok? <==> r.Ok?
    ensures r.Ok? ==> s.value == Some(r.value)
    ensures r.Err? ==> s.error == r.error
  {
    match r
    case Ok(v) => Ok(Some(v))
    case Err(e) => Err(e)
  }

  /** convert_ascii_bin(message, mode): the length check of mode 2 comes
      first; a mode other than 1 and 2 falls through and returns None. */
  function ConvertAsciiBin(message: string, mode: int): (r: Result<Option<string>, Error>)
    ensures mode != 1 && mode != 2 ==> r == Ok(None)
    ensures mode == 1 ==> (r.Ok? <==> IsAscii(message))
    ensures mode == 2 ==> (r == Err(ValueError) <==> |message| % 8 != 0)
    ensures r.Ok? && r.value.Some? ==> mode == 1 || mode == 2
  {
    if mode == 2 && |message| % 8 != 0 then Err(ValueError)
    else if mode == 1 then Lift(AsciiToBin(message))
    else if mode == 2 then Lift(BinToAscii(message))
    else Ok(None)
  }

  /** Text of characters below 128, converted to binary digits and back, is
      the text itself. */
  lemma AsciiRoundTrip(message: string)
    requires IsAscii(message)
    ensures AsciiToBin(message).Ok?
    ensures BinToAscii(AsciiToBin(message).value) == Ok(message)
  {
    var bits := AsciiToBin(message).value;
    var cs := ByteChunks(bits);
    forall i | 0 <= i < |message|
      ensures IsByteText(cs[i])
    {
      LeadingDigit(cs[i]);
    }
    var r := BinToAscii(bits);
    assert r.Ok?;
    assert r.value == message;
  }

  /** Binary digits whose length is a multiple of 8 and whose every chunk
      starts with '0', converted to text and back, are the digits themselves. */
  lemma BinRoundTrip(bits: string)
    requires AllBits(bits) && |bits| % 8 == 0
    requires forall i :: 0 <= i < |bits| / 8 ==> bits[8 * i] == '0'
    ensures BinToAscii(bits).Ok?
    ensures AsciiToBin(BinToAscii(bits).value) == Ok(bits)
  {
    var cs := ByteChunks(bits);
    forall i | 0 <= i < |cs|
      ensures IsByteText(cs[i])
    {
      ChunkAt(bits, 8, |cs|, i);
    }
    var message := BinToAscii(bits).value;
    forall i | 0 <= i < |message|
      ensures message[i] as int < 128
    {
      LeadingDigit(cs[i]);
    }
    var back := AsciiToBin(message).value;
    var ds := ByteChunks(back);
    forall i | 0 <= i < |cs|
      ensures ds[i] == cs[i]
    {
      assert BinaryValue(ds[i]) == BinaryValue(cs[i]);
      TextOfValue(cs[i]);
      TextOfValue(ds[i]);
    }
    assert ds == cs;
    SameChunks(back, bits, 8, |cs|);
  }

  // --------------------------------------------------------- mod_qpsk_bin

  /** The list `qpsk`: the phase, in degrees, of each two-digit symbol. */
  const Qpsk: seq<int> := [45, 135, 225, 315]

  /** The pairs `(bin(i)[2:].zfill(2), qpsk[i])` for `i in range(4)`. */
  function SymbolPairs(): (pairs: seq<(string, int)>)
    ensures |pairs| == 4
  {
    seq(4, i requires 0 <= i < 4 => (BinaryText(i, 2), Qpsk[i]))
  }

  /** The pairs `(qpsk[i], bin(i)[2:].zfill(2))` for `i in range(4)`. */
  function PhasePairs(): (pairs: seq<(int, string)>)
    ensures |pairs| == 4
  {
    seq(4, i requires 0 <= i < 4 => (Qpsk[i], BinaryText(i, 2)))
  }

  /** dict_bin_to_qpsk. */
  function BinToQpskTable(): (m: map<string, int>) {
    DictOf(SymbolPairs())
  }

  /** dict_qpsk_to_bin. */
  function QpskToBinTable(): (m: map<int, string>) {
    DictOf(PhasePairs())
  }

  /** The keys of dict_bin_to_qpsk are the two-digit binary texts, and each
      maps to the phase at the index it spells. */
  lemma BinToQpskEntry(t: string)
    ensures t in BinToQpskTable() <==> |t| == 2 && AllBits(t)
    ensures t in BinToQpskTable() ==> BinToQpskTable()[t] == Qpsk[BinaryValue(t)]
  {
    var pairs := SymbolPairs();
    DictOfKeys(pairs, t);
    forall i, j | 0 <= i < j < |pairs|
      ensures pairs[i].0 != pairs[j].0
    {
      ValueOfText(i, 2);
      ValueOfText(j, 2);
    }
    if t in BinToQpskTable() {
      var j :| 0 <= j < |pairs| && pairs[j].0 == t;
      ValueOfText(j, 2);
      DictOfAt(pairs, j);
    }
    if |t| == 2 && AllBits(t) {
      TextOfValue(t);
      assert pairs[BinaryValue(t)].0 == t;
    }
  }

  /** The keys of dict_qpsk_to_bin are the four phases, and each maps to the
      two binary digits of its index. */
  lemma QpskToBinEntry(p: int)
    ensures p in QpskToBinTable() <==> p in Qpsk
    ensures p in QpskToBinTable() ==>
              && |QpskToBinTable()[p]| == 2
              && AllBits(QpskToBinTable()[p])
              && Qpsk[BinaryValue(QpskToBinTable()[p])] == p
  {
    var pairs := PhasePairs();
    DictOfKeys(pairs, p);
    if p in Qpsk {
      var j :| 0 <= j < 4 && Qpsk[j] == p;
      assert pairs[j].0 == p;
      DictOfAt(pairs, j);
      ValueOfText(j, 2);
    }
  }

  /** The two-digit chunks `t[2*i : 2*(i+1)]` for `i in range(len(t) // 2)`. */
  function SymbolChunks(t: string): (cs: seq<string>)
    ensures |cs| == |t| / 2
  {
    Chunks(t, 2, |t| / 2)
  }

  /** mod_qpsk_bin(signal, 1) on a string: ValueError on an odd length;
      otherwise the phase of each two-digit chunk, and KeyError as soon as a
      chunk is not a key. */
  function BinToQpsk(bits: string): (r: Result<seq<int>, Error>)
    ensures r.Err? ==> r.error != TypeError
    ensures r == Err(ValueError) <==> |bits| % 2 != 0
    ensures r == Err(KeyError) <==> |bits| % 2 == 0 && !AllBits(bits)
    ensures r.Ok? ==>
              && AllBits(bits)
              && |r.value| == |bits| / 2
              && forall i :: 0 <= i < |bits| / 2 ==> r.value[i] == Qpsk[BinaryValue(SymbolChunks(bits)[i])]
  {
    if |bits| % 2 != 0 then Err(ValueError)
    else
      var cs := SymbolChunks(bits);
      ChunksAllBits(bits, 2, |cs|);
      if forall i :: 0 <= i < |cs| ==> cs[i] in BinToQpskTable() then
        forall i | 0 <= i < |cs|
          ensures AllBits(cs[i]) && BinToQpskTable()[cs[i]] == Qpsk[BinaryValue(cs[i])]
        {
          BinToQpskEntry(cs[i]);
        }
        Ok(seq(|cs|, i requires 0 <= i < |cs| && cs[i] in BinToQpskTable() => BinToQpskTable()[cs[i]]))
      else
        var i :| 0 <= i < |cs| && cs[i] !in BinToQpskTable();
        BinToQpskEntry(cs[i]);
        Err(KeyError)
  }

  /** mod_qpsk_bin(signal, 2) on a list of phases: the two binary digits of
      each phase's index, joined; KeyError as soon as a phase is not a key. */
  function QpskToBin(phases: seq<int>): (r: Result<string, Error>)
    ensures r.Ok? <==> forall i :: 0 <= i < |phases| ==> phases[i] in Qpsk
    ensures r.Err? ==> r.error == KeyError
    ensures r.Ok? ==>
              && |r.value| == 2 * |phases|
              && AllBits(r.value)
              && forall i :: 0 <= i < |phases| ==> Qpsk[BinaryValue(SymbolChunks(r.value)[i])] == phases[i]
  {
    if forall i :: 0 <= i < |phases| ==> phases[i] in QpskToBinTable() then
      var parts := seq(|phases|, i requires 0 <= i < |phases| && phases[i] in QpskToBinTable() =>
                                   QpskToBinTable()[phases[i]]);
      forall i | 0 <= i < |phases|
        ensures phases[i] in Qpsk && |parts[i]| == 2 && AllBits(parts[i])
        ensures Qpsk[BinaryValue(parts[i])] == phases[i]
      {
        QpskToBinEntry(phases[i]);
      }
      ChunksJoin(parts, 2);
      var bits := Join(parts);
      assert SymbolChunks(bits) == parts;
      ChunksAllBits(bits, 2, |parts|);
      Ok(bits)
    else
      var i :| 0 <= i < |phases| && phases[i] !in QpskToBinTable();
      QpskToBinEntry(phases[i]);
      Err(KeyError)
  }

  /** The signal argument of mod_qpsk_bin: a string of binary digits or a
      list (or array) of phases. */
  datatype Signal = Bits(bits: string) | Phases(phases: seq<int>)

  function SignalLength(signal: Signal): nat {
    match signal
    case Bits(b) => |b|
    case Phases(p) => |p|
  }

  /** mod_qpsk_bin(signal, mode). The odd-length check of mode 1 comes first.
      Mode 1 on a list slices the list, and a list slice is not a hashable
      key (TypeError) unless there is no slice at all; mode 2 on a string
      looks up one-character strings, which are never keys (KeyError), unless
      the string is empty. Any other mode returns None. */
  function ModQpskBin(signal: Signal, mode: int): (r: Result<Option<Signal>, Error>)
    ensures mode != 1 && mode != 2 ==> r == Ok(None)
    ensures mode == 1 ==> (r == Err(ValueError) <==> SignalLength(signal) % 2 != 0)
    ensures mode == 1 && signal.Bits? ==> (r.Ok? <==> |signal.bits| % 2 == 0 && AllBits(signal.bits))
    ensures mode == 2 && signal.Phases? ==>
              (r.Ok? <==> forall i :: 0 <= i < |signal.phases| ==> signal.phases[i] in Qpsk)
    ensures mode == 1 && signal.Phases? && r.Ok? ==> r.value == Some(Phases([]))
    ensures mode == 2 && signal.Bits? && r.Ok? ==> r.value == Some(Bits([]))
    ensures mode == 1 && signal.Phases? ==> (r.Ok? <==> |signal.phases| == 0)
    ensures mode == 1 && signal.Phases? && |signal.phases| % 2 == 0 && r.Err? ==> r.error == TypeError
    ensures mode == 2 && signal.Bits? ==> (r.Ok? <==> |signal.bits| == 0)
    ensures mode == 2 && signal.Bits? && r.Err? ==> r.error == KeyError
  {
    if mode == 1 && SignalLength(signal) % 2 != 0 then Err(ValueError)
    else if mode == 1 then
      match signal
      case Bits(b) =>
        (match BinToQpsk(b)
         case Ok(p) => Ok(Some(Phases(p)))
         case Err(e) => Err(e))
      case Phases(p) => if |p| / 2 == 0 then Ok(Some(Phases([]))) else Err(TypeError)
    else if mode == 2 then
      match signal
      case Phases(p) =>
        (match QpskToBin(p)
         case Ok(b) => Ok(Some(Bits(b)))
         case Err(e) => Err(e))
      case Bits(b) => if |b| == 0 then Ok(Some(Bits([]))) else Err(KeyError)
    else Ok(None)
  }

  /** Binary digits of even length, modulated to phases and demodulated, are
      the digits themselves. */
  lemma BinQpskRoundTrip(bits: string)
    requires |bits| % 2 == 0 && AllBits(bits)
    ensures BinToQpsk(bits).Ok?
    ensures QpskToBin(BinToQpsk(bits).value) == Ok(bits)
  {
    var cs := SymbolChunks(bits);
    var phases := BinToQpsk(bits).value;
    var back := QpskToBin(phases).value;
    var ds := SymbolChunks(back);
    forall i | 0 <= i < |cs|
      ensures ds[i] == cs[i]
    {
      assert Qpsk[BinaryValue(ds[i])] == Qpsk[BinaryValue(cs[i])];
      assert BinaryValue(ds[i]) == BinaryValue(cs[i]);
      TextOfValue(cs[i]);
      TextOfValue(ds[i]);
    }
    assert ds == cs;
    SameChunks(back, bits, 2, |cs|);
  }

  /** A list of QPSK phases, demodulated and modulated again, is the list
      itself. */
  lemma QpskBinRoundTrip(phases: seq<int>)
    requires forall i :: 0 <= i < |phases| ==> phases[i] in Qpsk
    ensures QpskToBin(phases).Ok?
    ensures BinToQpsk(QpskToBin(phases).value) == Ok(phases)
  {
    var bits := QpskToBin(phases).value;
    var r := BinToQpsk(bits);
    assert r.Ok?;
    assert r.value == phases;
  }

  // ----------------------------------------------------- threshold_phases

  /** `(phase + 360) % 360` with Python's floor modulo, read as exact
      arithmetic: the phase brought into [0, 360) by whole turns. */
  function Wrap(phase: real): (w: real)
    ensures 0.0 <= w < 360.0
    ensures ((w - phase) / 360.0).Floor as real == (w - phase) / 360.0
  {
    var x := phase + 360.0;
    var k := (x / 360.0).Floor;
    assert (x - 360.0 * k as real - phase) / 360.0 == (1 - k) as real;
    x - 360.0 * k as real
  }

  /** The four tests of threshold_phases on a wrapped phase; the last one,
      `270 <= phase < 360`, always holds when the first three fail. */
  function Quantize(w: real): (q: int)
    requires 0.0 <= w < 360.0
    ensures q == Qpsk[(w / 90.0).Floor]
  {
    if w < 90.0 then 45 else if w < 180.0 then 135 else if w < 270.0 then 225 else 315
  }

  /** threshold_phases(phases): each phase is wrapped into [0, 360) and
      replaced by the QPSK phase of its quarter of the circle. Every phase
      yields exactly one output. */
  function ThresholdPhases(phases: seq<real>): (r: seq<int>)
    ensures |r| == |phases|
    ensures forall i :: 0 <= i < |phases| ==> r[i] in Qpsk && r[i] == Quantize(Wrap(phases[i]))
  {
    if |phases| == 0 then [] else [Quantize(Wrap(phases[0]))] + ThresholdPhases(phases[1..])
  }

  /** The phases as the reals the quantiser reads. */
  function AsReals(phases: seq<int>): (r: seq<real>)
    ensures |r| == |phases| && forall i :: 0 <= i < |phases| ==> r[i] == phases[i] as real
  {
    seq(|phases|, i requires 0 <= i < |phases| => phases[i] as real)
  }

  /** Each QPSK phase lies in its own quarter of the circle. */
  lemma QuantizeFixes(p: int)
    requires p in Qpsk
    ensures Quantize(Wrap(p as real)) == p
  {
    assert Wrap(p as real) == p as real;
  }

  /** Quantising phases that were already quantised changes nothing. */
  lemma ThresholdIdempotent(phases: seq<real>)
    ensures ThresholdPhases(AsReals(ThresholdPhases(phases))) == ThresholdPhases(phases)
  {
    var q := ThresholdPhases(phases);
    var again := ThresholdPhases(AsReals(q));
    forall i | 0 <= i < |q|
      ensures again[i] == q[i]
    {
      assert AsReals(q)[i] == q[i] as real;
      QuantizeFixes(q[i]);
    }
  }

  /** Quantised phases always demodulate: every one is a key of
      dict_qpsk_to_bin. */
  lemma ThresholdDemodulates(phases: seq<real>)
    ensures QpskToBin(ThresholdPhases(phases)).Ok?
  {
  }
}
