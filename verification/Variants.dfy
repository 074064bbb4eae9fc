/** ENUM and SET columns: the list of names taken from the column's type text, and the names a value stands for. */
module Variants {
  import opened Memory
  import opened Numbers
  import opened Bits
  import opened Values

  const QUOTE: char := '\''

  // ---------------------------------------------------------------- the type text

  /** Where `c` next occurs from `p` on; the length of `s` stands for `npos`. */
  function Find(s: string, c: char, p: nat): (r: nat)
    requires p <= |s|
    ensures p <= r <= |s| && (r < |s| ==> s[r] == c) && forall i | p <= i < r :: s[i] != c
    decreases |s| - p
  {
    if p == |s| || s[p] == c then p else Find(s, c, p + 1)
  }

  /** The quoted pieces of a text that starts outside quotes; an unterminated piece is dropped. */
  function Outside(t: string): seq<string>
    decreases |t|
  {
    if t == "" then [] else if t[0] == QUOTE then Inside(t[1..], "") else Outside(t[1..])
  }

  function Inside(t: string, piece: string): seq<string>
    decreases |t|
  {
    if t == "" then []
    else if t[0] == QUOTE then [piece] + Outside(t[1..])
    else Inside(t[1..], piece + [t[0]])
  }

  predicate HasVariants(text: string) { "enum" <= text || "set" <= text }

  function VariantsOf(text: string): seq<string> { if HasVariants(text) then Outside(text) else [] }

  /** The pieces taken from the text before `p`, which is outside quotes. */
  ghost predicate Taken(text: string, pieces: seq<string>, p: nat) {
    p <= |text| && Outside(text) == pieces + Outside(text[p..])
  }

  lemma NothingTaken(text: string)
    ensures Taken(text, [], 0)
  {
    assert text[0..] == text;
  }

  /** The next piece lies between the next two quotes. */
  lemma TakePiece(text: string, pieces: seq<string>, p: nat)
    requires p <= |text| && Taken(text, pieces, p)
    ensures var q := Find(text, QUOTE, p);
      && p <= q <= |text|
      && if q == |text| then Outside(text) == pieces
         else
           var r := Find(text, QUOTE, q + 1);
           && q + 1 <= r <= |text|
           && if r == |text| then Outside(text) == pieces else Taken(text, pieces + [text[q + 1..r]], r + 1)
  {
    hide Outside, Inside;
    OutsideSkips(text, p);
    var q := Find(text, QUOTE, p);
    if q < |text| {
      InsideTakes(text, q + 1, "");
      assert "" + text[q + 1..Find(text, QUOTE, q + 1)] == text[q + 1..Find(text, QUOTE, q + 1)];
    }
  }

  lemma {:induction false} OutsideSkips(s: string, p: nat)
    requires p <= |s|
    ensures var q := Find(s, QUOTE, p); Outside(s[p..]) == if q == |s| then [] else Inside(s[q + 1..], "")
    decreases |s| - p
  {
    if p < |s| {
      assert s[p..][1..] == s[p + 1..];
      if s[p] != QUOTE {
        OutsideSkips(s, p + 1);
      }
    }
  }

  lemma {:induction false} InsideTakes(s: string, p: nat, piece: string)
    requires p <= |s|
    ensures var q := Find(s, QUOTE, p);
      Inside(s[p..], piece) == if q == |s| then [] else [piece + s[p..q]] + Outside(s[q + 1..])
    decreases |s| - p
  {
    hide *;
    InsideStep(s, p, piece);
    FindStep(s, p);
    var q := Find(s, QUOTE, p);
    if p < |s| && s[p] != QUOTE {
      InsideTakes(s, p + 1, piece + [s[p]]);
      OneMore(s, p, q, piece);
    } else if p < |s| {
      assert piece + s[p..p] == piece;
    }
  }

  lemma InsideStep(s: string, p: nat, piece: string)
    requires p <= |s|
    ensures Inside(s[p..], piece) ==
      if p == |s| then []
      else if s[p] == QUOTE then [piece] + Outside(s[p + 1..])
      else Inside(s[p + 1..], piece + [s[p]])
  {
    hide Outside;
    if p < |s| {
      assert s[p..][1..] == s[p + 1..];
    }
  }

  lemma FindStep(s: string, p: nat)
    requires p <= |s|
    ensures Find(s, QUOTE, p) == if p == |s| || s[p] == QUOTE then p else Find(s, QUOTE, p + 1)
  {
  }

  lemma OneMore(s: string, p: nat, q: nat, piece: string)
    requires p < q <= |s|
    ensures piece + s[p..q] == (piece + [s[p]]) + s[p + 1..q]
  {
  }

  class ColumnDesc {
    var position: nat
    var variants: seq<string>

    constructor (pos: nat, text: string)
      ensures position == pos && variants == VariantsOf(text)
    {
      position := pos;
      variants := [];
      new;
      Update(pos, text);
    }

    method Update(pos: nat, text: string)
      modifies this
      ensures position == pos && variants == VariantsOf(text)
    {
      hide Outside, Inside, Find, Taken;
      position := pos;
      variants := [];
      if text != "" && HasVariants(text) {
        var pos1, pos2 := 0, 0;
        NothingTaken(text);
        while true
          invariant 0 <= pos1 <= |text| && position == pos && HasVariants(text)
          invariant Taken(text, variants, pos1)
          decreases |text| - pos1
        {
          TakePiece(text, variants, pos1);
          pos1 := Find(text, QUOTE, pos1);
          if pos1 == |text| {
            break;
          }
          pos1 := pos1 + 1;
          pos2 := Find(text, QUOTE, pos1);
          if pos2 == |text| {
            break;
          }
          variants := variants + [text[pos1..pos2]];
          pos1 := pos2 + 1;
        }
      }
    }
  }

  /** A name as it stands in a type text: quotes in it are doubled. */
  function Escape(name: string): string {
    if name == "" then "" else (if name[0] == QUOTE then [QUOTE, QUOTE] else [name[0]]) + Escape(name[1..])
  }

  /** `'a','b',...` */
  function PrintNames(names: seq<string>): string {
    if names == [] then ""
    else [QUOTE] + Escape(names[0]) + [QUOTE] + (if |names| > 1 then "," else "") + PrintNames(names[1..])
  }

  function PrintEnum(names: seq<string>): string { "enum(" + PrintNames(names) + ")" }

  function PrintSet(names: seq<string>): string { "set(" + PrintNames(names) + ")" }

  /** The parts of a name between its quotes. */
  function Split(name: string): (r: seq<string>)
    ensures r != []
  {
    if name == "" then [""]
    else
      var rest := Split(name[1..]);
      if name[0] == QUOTE then [""] + rest else [[name[0]] + rest[0]] + rest[1..]
  }

  function SplitAll(names: seq<string>): seq<string> {
    if names == [] then [] else Split(names[0]) + SplitAll(names[1..])
  }

  /** The reader takes every quote for the end of a piece, so a name comes out as its parts. */
  lemma {:induction false} InsideEscaped(name: string, piece: string, rest: string)
    ensures Inside(Escape(name) + [QUOTE] + rest, piece) ==
      [piece + Split(name)[0]] + Split(name)[1..] + Outside(rest)
    decreases |name|
  {
    var t := Escape(name) + [QUOTE] + rest;
    if name == "" {
      assert t == [QUOTE] + rest && t[1..] == rest;
      assert piece + "" == piece;
    } else {
      var tail := Escape(name[1..]) + [QUOTE] + rest;
      if name[0] == QUOTE {
        assert t == [QUOTE] + ([QUOTE] + tail);
        assert t[1..] == [QUOTE] + tail && t[1..][1..] == tail;
        InsideEscaped(name[1..], "", rest);
        assert "" + Split(name[1..])[0] == Split(name[1..])[0];
        assert [Split(name[1..])[0]] + Split(name[1..])[1..] == Split(name[1..]);
        assert piece + "" == piece;
        assert Split(name) == [""] + Split(name[1..]);
        assert Inside(t, piece) == [piece] + Inside(tail, "");
        assert [piece] + (Split(name[1..]) + Outside(rest)) == [piece] + Split(name[1..]) + Outside(rest);
      } else {
        assert t == [name[0]] + tail && t[1..] == tail;
        InsideEscaped(name[1..], piece + [name[0]], rest);
        assert (piece + [name[0]]) + Split(name[1..])[0] == piece + ([name[0]] + Split(name[1..])[0]);
      }
    }
  }

  lemma {:induction false} OutsidePrinted(names: seq<string>)
    ensures Outside(PrintNames(names) + ")") == SplitAll(names)
    decreases |names|
  {
    var t := PrintNames(names) + ")";
    if names == [] {
      assert t == ")" && t[1..] == "";
    } else {
      var comma := if |names| > 1 then "," else "";
      var rest := PrintNames(names[1..]) + ")";
      assert t == [QUOTE] + (Escape(names[0]) + [QUOTE] + (comma + rest));
      assert t[1..] == Escape(names[0]) + [QUOTE] + (comma + rest);
      InsideEscaped(names[0], "", comma + rest);
      assert "" + Split(names[0])[0] == Split(names[0])[0];
      assert [Split(names[0])[0]] + Split(names[0])[1..] == Split(names[0]);
      if |names| > 1 {
        assert (comma + rest)[1..] == rest;
      } else {
        assert comma + rest == rest;
      }
      OutsidePrinted(names[1..]);
    }
  }

  lemma {:induction false} OutsidePrefix(prefix: string, t: string)
    requires forall i | 0 <= i < |prefix| :: prefix[i] != QUOTE
    ensures Outside(prefix + t) == Outside(t)
    decreases |prefix|
  {
    if prefix == "" {
      assert prefix + t == t;
    } else {
      assert (prefix + t)[1..] == prefix[1..] + t;
      OutsidePrefix(prefix[1..], t);
    }
  }

  predicate QuoteFree(name: string) { QUOTE !in name }

  lemma {:induction false} SplitSize(name: string)
    ensures QuoteFree(name) ==> Split(name) == [name]
    ensures !QuoteFree(name) ==> |Split(name)| > 1
  {
    if name != "" {
      SplitSize(name[1..]);
      assert name == [name[0]] + name[1..];
    }
  }

  lemma {:induction false} SplitAllSize(names: seq<string>)
    ensures |SplitAll(names)| >= |names|
    ensures |SplitAll(names)| == |names| <==> forall n | n in names :: QuoteFree(n)
    ensures (forall n | n in names :: QuoteFree(n)) ==> SplitAll(names) == names
  {
    if names != [] {
      hide QuoteFree, Split;
      SplitAllSize(names[1..]);
      SplitSize(names[0]);
      assert names == [names[0]] + names[1..];
      assert (forall n | n in names :: QuoteFree(n)) <==>
        QuoteFree(names[0]) && forall n | n in names[1..] :: QuoteFree(n);
    }
  }

  /** No other type has names, whatever quotes are in its text. */
  lemma OtherTypeHasNone(text: string)
    requires !("enum" <= text) && !("set" <= text)
    ensures VariantsOf(text) == []
  {
  }

  /** The names of a printed type come back exactly when none of them contains a quote. */
  lemma VariantsRoundTrip(names: seq<string>)
    ensures VariantsOf(PrintEnum(names)) == names <==> forall n | n in names :: QuoteFree(n)
    ensures VariantsOf(PrintSet(names)) == names <==> forall n | n in names :: QuoteFree(n)
  {
    hide Outside, PrintNames, SplitAll, QuoteFree;
    OutsidePrinted(names);
    OutsidePrefix("enum(", PrintNames(names) + ")");
    OutsidePrefix("set(", PrintNames(names) + ")");
    assert PrintEnum(names) == "enum(" + (PrintNames(names) + ")");
    assert PrintSet(names) == "set(" + (PrintNames(names) + ")");
    assert PrintEnum(names)[..4] == "enum" && PrintSet(names)[..3] == "set";
    SplitAllSize(names);
  }

  // ---------------------------------------------------------------- the values

  /** `as_enum()`: the stored number, for the widths it knows. */
  function AsEnum(v: Value, m: seq<byte>): nat {
    if v.IsNull() || v.size == 0 || v.storage.None? || (v.ftype != TYPE_ENUM && v.ftype != TYPE_SET) then 0
    else if v.size <= 4 then LE(m, v.storage.value, v.size)
    else 0
  }

  /** `as_enum(desc)`, the subtraction in 64 bits. */
  function EnumName(v: Value, m: seq<byte>, variants: seq<string>): string {
    var pos := (AsEnum(v, m) - 1) % TWO64;
    if pos < |variants| then variants[pos] else ""
  }

  /** The names from `pos` on whose bit is set; a bit without a name ends the list. */
  function SetNames(mask: nat, variants: seq<string>, pos: nat): seq<string> {
    if mask == 0 then []
    else if mask % 2 == 0 then SetNames(mask / 2, variants, pos + 1)
    else if pos < |variants| then [variants[pos]] + SetNames(mask / 2, variants, pos + 1)
    else []
  }

  method AsSet(v: Value, m: seq<byte>, variants: seq<string>) returns (result: seq<string>)
    ensures result == SetNames(AsEnum(v, m), variants, 0)
  {
    var mask, pos := AsEnum(v, m), 0;
    result := [];
    while mask != 0
      invariant SetNames(AsEnum(v, m), variants, 0) == result + SetNames(mask, variants, pos)
      decreases mask
    {
      if mask % 2 == 1 {
        if |variants| > pos {
          result := result + [variants[pos]];
        } else {
          return;
        }
      }
      pos := pos + 1;
      mask := mask / 2;
    }
  }

  /** The chosen names, in definition order. */
  function Chosen(variants: seq<string>, choice: seq<bool>): seq<string>
    requires |choice| == |variants|
  {
    if choice == [] then []
    else (if choice[0] then [variants[0]] else []) + Chosen(variants[1..], choice[1..])
  }

  lemma {:induction false} SetNamesChosen(variants: seq<string>, choice: seq<bool>, pos: nat)
    requires pos <= |variants| && |choice| == |variants| - pos
    ensures SetNames(BitsVal(choice), variants, pos) == Chosen(variants[pos..], choice)
    decreases |choice|
  {
    if choice != [] {
      SetNamesChosen(variants, choice[1..], pos + 1);
      assert variants[pos..][1..] == variants[pos + 1..];
      var rest := BitsVal(choice[1..]);
      if choice[0] {
        assert BitsVal(choice) == 2 * rest + 1;
      } else {
        assert BitsVal(choice) == 2 * rest;
      }
    }
  }

  lemma {:induction false} NoneChosen(variants: seq<string>, choice: seq<bool>)
    requires |choice| == |variants|
    ensures Chosen(variants, choice) == [] <==> true !in choice
  {
    if choice != [] {
      NoneChosen(variants[1..], choice[1..]);
      assert choice == [choice[0]] + choice[1..];
    }
  }

  /** Whatever is stored: the names of the set bits in definition order, the bits past the last name being ignored. */
  lemma {:induction false} SetNamesOfBits(mask: nat, variants: seq<string>, pos: nat)
    requires pos <= |variants|
    ensures SetNames(mask, variants, pos) == Chosen(variants[pos..], LowBits(mask, |variants| - pos))
    decreases |variants| - pos
  {
    var n := |variants| - pos;
    if n == 0 {
      SetNamesPastEnd(mask, variants, pos);
    } else {
      SetNamesOfBits(mask / 2, variants, pos + 1);
      LowBitsStep(mask, n);
      assert variants[pos..][1..] == variants[pos + 1..];
      if mask == 0 {
        NoBits(n);
        NoneChosen(variants[pos..], LowBits(0, n));
      }
    }
  }

  /** The low `n` bits of a number. */
  function LowBits(mask: nat, n: nat): (bits: seq<bool>)
    ensures |bits| == n
  {
    seq(n, i requires 0 <= i < n => Bit(mask, i))
  }

  lemma LowBitsStep(mask: nat, n: nat)
    requires n > 0
    ensures LowBits(mask, n)[0] == (mask % 2 == 1) && LowBits(mask, n)[1..] == LowBits(mask / 2, n - 1)
  {
  }

  lemma NoBits(n: nat)
    ensures true !in LowBits(0, n)
  {
    forall i | 0 <= i < n
      ensures !LowBits(0, n)[i]
    {
      BitZero(i);
    }
  }

  lemma {:induction false} SetNamesPastEnd(mask: nat, variants: seq<string>, pos: nat)
    requires |variants| <= pos
    ensures SetNames(mask, variants, pos) == []
  {
    if mask > 0 && mask % 2 == 0 {
      SetNamesPastEnd(mask / 2, variants, pos + 1);
    }
  }

  /** NULL, a value of another type, and a value of no width or of more than four bytes have no names. */
  lemma NothingChosen(v: Value, m: seq<byte>, variants: seq<string>)
    requires v.IsNull() || v.storage.None? || !(1 <= v.size <= 4) || (v.ftype != 247 && v.ftype != 248)
    requires |variants| < TWO64
    ensures EnumName(v, m, variants) == "" && SetNames(AsEnum(v, m), variants, 0) == []
  {
  }

  /**
   * A subset stored as a bitmask of `k` bytes comes back as exactly its names, in definition order, when `k` is at
   * most four. For the wider sets the reader knows no width, and only the empty subset comes back.
   */
  lemma SetRoundTrip(variants: seq<string>, choice: seq<bool>, v: Value, m: seq<byte>, k: nat)
    requires |choice| == |variants| <= 8 * k && 1 <= k
    requires v.ftype == TYPE_SET && !v.nullFlag && v.size == k && v.storage.Some?
    requires Holds(m, v.storage.value, LEBytes(BitsVal(choice), k))
    ensures SetNames(AsEnum(v, m), variants, 0) == Chosen(variants, choice) <==> k <= 4 || true !in choice
  {
    hide LE, LEBytes, BitsVal, Chosen;
    NoneChosen(variants, choice);
    if k <= 4 {
      BitsValBound(choice);
      PowMono(2, |choice|, 8 * k);
      Pow256(k);
      LERoundTrip(m, v.storage.value, k, BitsVal(choice));
      SetNamesChosen(variants, choice, 0);
      assert variants[0..] == variants;
    }
  }

  /** The name with this number, counted from one; the wrapped number -1 of no name is past any list. */
  lemma NameWithNumber(variants: seq<string>, index: nat)
    requires index < TWO64 && |variants| < TWO64
    ensures var pos := (index - 1) % TWO64;
      (if pos < |variants| then variants[pos] else "") ==
        if 1 <= index <= |variants| then variants[index - 1] else ""
  {
    if index > 0 {
      SmallMod(index - 1, TWO64);
    }
  }

  /**
   * The stored index of an enum counts names from one; the index 0 of an invalid value has no name, and neither has an
   * index past the last name, or any index stored in more than four bytes.
   */
  lemma EnumRoundTrip(variants: seq<string>, index: nat, v: Value, m: seq<byte>, k: nat)
    requires index < Pow(256, k) && |variants| < TWO64 && 1 <= k
    requires v.ftype == TYPE_ENUM && !v.nullFlag && v.size == k && v.storage.Some?
    requires Holds(m, v.storage.value, LEBytes(index, k))
    ensures EnumName(v, m, variants) == if 1 <= index <= |variants| && k <= 4 then variants[index - 1] else ""
  {
    hide LE, LEBytes, Pow, Holds;
    LERoundTrip(m, v.storage.value, k, index);
    if k <= 4 {
      LEBelow32(m, v.storage.value, k);
      NameWithNumber(variants, index);
    } else {
      NameWithNumber(variants, 0);
    }
  }
}
