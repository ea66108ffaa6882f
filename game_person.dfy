/** The bit-packed game character of the structs exercise (GamePerson): a
    42-byte name buffer, two 16-bit words f1 and f2, two bytes f3 and f4,
    32-bit signed coordinates and 32-bit unsigned gold. Options are values of
    the `Option` datatype and applying one is `Apply`; NewGamePerson applies
    them in order to the zero person.

    Each word is its sequence of bits, lowest first. Every mask of the source
    covers one contiguous run of bits, given here by its first bit (the shift)
    and its width: `(w & mask) >> shift` is `Read(w, shift, width)`,
    `w &^ mask | v << shift` is `Write(w, shift, width, v)`, and `w | mask`
    for a one-bit mask writes 1 into that bit. */
module GamePersons {

  const NameCapacity: nat := 42

  newtype Int32 = x: int | -0x8000_0000 <= x < 0x8000_0000
  newtype Uint32 = x: int | 0 <= x < 0x1_0000_0000
  newtype Byte = x: int | 0 <= x < 0x100

  type Word16 = w: seq<bool> | |w| == 16 witness seq(16, _ => false)
  type Word8 = w: seq<bool> | |w| == 8 witness seq(8, _ => false)

  type NameBuffer = s: seq<Byte> | |s| == NameCapacity witness seq(42, _ => 0)

  // f1: maskMana 0x03FF is bits 0-9; maskNameLen 0xFC00 is bits 10-15
  // (shiftNameLen 10).
  const ManaShift: nat := 0
  const ManaWidth: nat := 10
  const NameLenShift: nat := 10
  const NameLenWidth: nat := 6
  // f2: maskHealth 0x03FF is bits 0-9; maskHouse 0x0400, maskGun 0x0800 and
  // maskFamily 0x1000 are bits 10, 11 and 12; maskType 0x6000 is bits 13-14
  // (shiftType 13).
  const HealthShift: nat := 0
  const HealthWidth: nat := 10
  const HouseBit: nat := 10
  const GunBit: nat := 11
  const FamilyBit: nat := 12
  const TypeShift: nat := 13
  const TypeWidth: nat := 2
  // f3: maskRespect 0x0F is bits 0-3, maskStrength 0xF0 bits 4-7
  // (shiftStrength 4); f4: maskExperience 0x0F is bits 0-3, maskLevel 0xF0
  // bits 4-7 (shiftLevel 4).
  const LowNibbleShift: nat := 0
  const HighNibbleShift: nat := 4
  const NibbleWidth: nat := 4

  const BuilderGamePersonType := 0
  const BlacksmithGamePersonType := 1
  const WarriorGamePersonType := 2

  function Pow2(n: nat): nat
  {
    if n == 0 then 1 else 2 * Pow2(n - 1)
  }

  /** The value of a run of bits, lowest bit first. */
  function ValueOf(bits: seq<bool>): (v: nat)
    ensures v < Pow2(|bits|)
  {
    if bits == [] then 0 else (if bits[0] then 1 else 0) + 2 * ValueOf(bits[1..])
  }

  /** The n lowest bits of v, lowest first. */
  function BitsOf(v: nat, n: nat): (r: seq<bool>)
    ensures |r| == n
  {
    if n == 0 then [] else [v % 2 == 1] + BitsOf(v / 2, n - 1)
  }

  /** A value below 2^n survives being written as n bits and read back. */
  lemma {:induction false} ValueOfBitsOf(v: nat, n: nat)
    requires v < Pow2(n)
    ensures ValueOf(BitsOf(v, n)) == v
  {
    if n > 0 {
      ValueOfBitsOf(v / 2, n - 1);
      assert BitsOf(v, n)[1..] == BitsOf(v / 2, n - 1);
    }
  }

  /** A run of clear bits is worth zero. */
  lemma {:induction false} ValueOfClear(bits: seq<bool>)
    requires forall i | 0 <= i < |bits| :: !bits[i]
    ensures ValueOf(bits) == 0
  {
    if bits != [] {
      ValueOfClear(bits[1..]);
    }
  }

  /** The run of bits of w from bit shift on, width bits wide, as a number. */
  function Read(w: seq<bool>, shift: nat, width: nat): (v: nat)
    requires shift + width <= |w|
    ensures v < Pow2(width)
  {
    ValueOf(w[shift..shift + width])
  }

  /** w with the run of bits from shift on, width bits wide, replaced by v. */
  function Write(w: seq<bool>, shift: nat, width: nat, v: nat): (r: seq<bool>)
    requires shift + width <= |w|
    ensures |r| == |w|
  {
    w[..shift] + BitsOf(v, width) + w[shift + width..]
  }

  /** A written run reads back as the value written, when the value fits. */
  lemma ReadWrite(w: seq<bool>, shift: nat, width: nat, v: nat)
    requires shift + width <= |w| && v < Pow2(width)
    ensures Read(Write(w, shift, width, v), shift, width) == v
  {
    assert Write(w, shift, width, v)[shift..shift + width] == BitsOf(v, width);
    ValueOfBitsOf(v, width);
  }

  /** Writing one run keeps every run that does not overlap it. */
  lemma ReadOther(w: seq<bool>, shift: nat, width: nat, v: nat, shift2: nat, width2: nat)
    requires shift + width <= |w| && shift2 + width2 <= |w|
    requires shift2 + width2 <= shift || shift + width <= shift2
    ensures Read(Write(w, shift, width, v), shift2, width2) == Read(w, shift2, width2)
  {
    assert Write(w, shift, width, v)[shift2..shift2 + width2] == w[shift2..shift2 + width2];
  }

  /** Writing a run twice is writing it once with the second value. */
  lemma WriteTwice(w: seq<bool>, shift: nat, width: nat, v1: nat, v2: nat)
    requires shift + width <= |w|
    ensures Write(Write(w, shift, width, v1), shift, width, v2) == Write(w, shift, width, v2)
  {
    var w1 := Write(w, shift, width, v1);
    assert w1[..shift] == w[..shift];
    assert w1[shift + width..] == w[shift + width..];
  }

  datatype GamePerson = GamePerson(
    name: NameBuffer,
    f1: Word16, f2: Word16,
    f3: Word8, f4: Word8,
    x: Int32, y: Int32, z: Int32,
    gold: Uint32)

  /** The zero value `var res GamePerson` starts from. */
  const Zero: GamePerson := GamePerson(seq(42, _ => 0), seq(16, _ => false), seq(16, _ => false),
    seq(8, _ => false), seq(8, _ => false), 0, 0, 0, 0)

  /** The conversion int32(v): the low 32 bits of v, read in two's complement. */
  function ToInt32(v: int): (r: Int32)
    ensures (r as int - v) % 0x1_0000_0000 == 0
    ensures -0x8000_0000 <= v < 0x8000_0000 ==> r as int == v
  {
    var low := v % 0x1_0000_0000;
    if low < 0x8000_0000 then low as Int32 else (low - 0x1_0000_0000) as Int32
  }

  /** The conversion uint32(v): the low 32 bits of v. */
  function ToUint32(v: int): (r: Uint32)
    ensures (r as int - v) % 0x1_0000_0000 == 0
    ensures 0 <= v < 0x1_0000_0000 ==> r as int == v
  {
    (v % 0x1_0000_0000) as Uint32
  }

  /** One option closure, by the constructor that returns it. */
  datatype Option =
    | WithName(text: seq<Byte>)
    | WithCoordinates(cx: int, cy: int, cz: int)
    | WithGold(amount: int)
    | WithMana(mana: int)
    | WithHealth(health: int)
    | WithRespect(respect: int)
    | WithStrength(strength: int)
    | WithExperience(experience: int)
    | WithLevel(level: int)
    | WithHouse
    | WithGun
    | WithFamily
    | WithType(personType: int)

  function Min(a: int, b: int): int
  {
    if a < b then a else b
  }

  /** The name buffer after copying the first min(42, |text|) bytes of text. */
  function CopyName(buffer: NameBuffer, text: seq<Byte>): (r: NameBuffer)
    ensures r[..Min(NameCapacity, |text|)] == text[..Min(NameCapacity, |text|)]
    ensures r[Min(NameCapacity, |text|)..] == buffer[Min(NameCapacity, |text|)..]
  {
    var n := Min(NameCapacity, |text|);
    text[..n] + buffer[n..]
  }

  // The bodies of the option closures. Each one touches only the fields its
  // closure assigns.

  function SetName(p: GamePerson, text: seq<Byte>): (r: GamePerson)
    ensures r.(name := p.name, f1 := p.f1) == p
  {
    var size := Min(NameCapacity, |text|);
    p.(name := CopyName(p.name, text), f1 := Write(p.f1, NameLenShift, NameLenWidth, size))
  }

  function SetMana(p: GamePerson, mana: int): (r: GamePerson)
    ensures r.(f1 := p.f1) == p
  {
    if mana < 0 || mana > 1000 then p else p.(f1 := Write(p.f1, ManaShift, ManaWidth, mana))
  }

  function SetHealth(p: GamePerson, health: int): (r: GamePerson)
    ensures r.(f2 := p.f2) == p
  {
    if health < 0 || health > 1000 then p else p.(f2 := Write(p.f2, HealthShift, HealthWidth, health))
  }

  function SetRespect(p: GamePerson, respect: int): (r: GamePerson)
    ensures r.(f3 := p.f3) == p
  {
    if respect < 0 || respect > 10 then p else p.(f3 := Write(p.f3, LowNibbleShift, NibbleWidth, respect))
  }

  function SetStrength(p: GamePerson, strength: int): (r: GamePerson)
    ensures r.(f3 := p.f3) == p
  {
    if strength < 0 || strength > 10 then p else p.(f3 := Write(p.f3, HighNibbleShift, NibbleWidth, strength))
  }

  function SetExperience(p: GamePerson, experience: int): (r: GamePerson)
    ensures r.(f4 := p.f4) == p
  {
    if experience < 0 || experience > 10 then p
    else p.(f4 := Write(p.f4, LowNibbleShift, NibbleWidth, experience))
  }

  function SetLevel(p: GamePerson, level: int): (r: GamePerson)
    ensures r.(f4 := p.f4) == p
  {
    if level < 0 || level > 10 then p else p.(f4 := Write(p.f4, HighNibbleShift, NibbleWidth, level))
  }

  /** The f2 | mask of WithHouse, WithGun and WithFamily, for the mask's bit. */
  function SetFlag(p: GamePerson, bit: nat): (r: GamePerson)
    requires bit < 16
    ensures r.(f2 := p.f2) == p
  {
    p.(f2 := Write(p.f2, bit, 1, 1))
  }

  function SetType(p: GamePerson, personType: int): (r: GamePerson)
    ensures r.(f2 := p.f2) == p
  {
    if personType < BuilderGamePersonType || personType > WarriorGamePersonType then p
    else p.(f2 := Write(p.f2, TypeShift, TypeWidth, personType))
  }

  /** Running one option closure on a person. Range-checked options leave the
      person as it is when their argument is out of range. */
  function Apply(p: GamePerson, opt: Option): (r: GamePerson)
    ensures !opt.WithName? ==> r.name == p.name
    ensures !opt.WithName? && !opt.WithMana? ==> r.f1 == p.f1
    ensures opt.WithRespect? || opt.WithStrength? || r.f3 == p.f3
    ensures opt.WithExperience? || opt.WithLevel? || r.f4 == p.f4
    ensures !opt.WithCoordinates? ==> r.x == p.x && r.y == p.y && r.z == p.z
    ensures !opt.WithGold? ==> r.gold == p.gold
  {
    match opt
    case WithName(text) => SetName(p, text)
    case WithCoordinates(cx, cy, cz) => p.(x := ToInt32(cx), y := ToInt32(cy), z := ToInt32(cz))
    case WithGold(amount) => p.(gold := ToUint32(amount))
    case WithMana(mana) => SetMana(p, mana)
    case WithHealth(health) => SetHealth(p, health)
    case WithRespect(respect) => SetRespect(p, respect)
    case WithStrength(strength) => SetStrength(p, strength)
    case WithExperience(experience) => SetExperience(p, experience)
    case WithLevel(level) => SetLevel(p, level)
    case WithHouse => SetFlag(p, HouseBit)
    case WithGun => SetFlag(p, GunBit)
    case WithFamily => SetFlag(p, FamilyBit)
    case WithType(personType) => SetType(p, personType)
  }

  /** The options applied left to right. */
  function ApplyAll(p: GamePerson, opts: seq<Option>): GamePerson
    decreases |opts|
  {
    if opts == [] then p else ApplyAll(Apply(p, opts[0]), opts[1..])
  }

  // Getters.

  function NameLen(p: GamePerson): int
  {
    Read(p.f1, NameLenShift, NameLenWidth)
  }

  /** The stored name length never exceeds the buffer: the name-length bits
      are only written by WithName, with at most 42. */
  ghost predicate NameFits(p: GamePerson)
  {
    NameLen(p) <= NameCapacity
  }

  /** Name(): the first NameLen bytes of the buffer. */
  function Name(p: GamePerson): (s: seq<Byte>)
    requires NameFits(p)
    ensures |s| == NameLen(p) && s == p.name[..|s|]
  {
    p.name[..NameLen(p)]
  }

  /** X(), Y(), Z(): the coordinates, each an int32. */
  function X(p: GamePerson): (r: int)
    ensures -0x8000_0000 <= r < 0x8000_0000
  {
    p.x as int
  }

  function Y(p: GamePerson): (r: int)
    ensures -0x8000_0000 <= r < 0x8000_0000
  {
    p.y as int
  }

  function Z(p: GamePerson): (r: int)
    ensures -0x8000_0000 <= r < 0x8000_0000
  {
    p.z as int
  }

  /** Gold(): a uint32. */
  function Gold(p: GamePerson): (r: int)
    ensures 0 <= r < 0x1_0000_0000
  {
    p.gold as int
  }

  /** Mana() and Health() read 10-bit fields. */
  function Mana(p: GamePerson): (r: int)
    ensures 0 <= r < Pow2(ManaWidth)
  {
    Read(p.f1, ManaShift, ManaWidth)
  }

  function Health(p: GamePerson): (r: int)
    ensures 0 <= r < Pow2(HealthWidth)
  {
    Read(p.f2, HealthShift, HealthWidth)
  }

  /** Respect(), Strength() and Experience() read nibbles. */
  function Respect(p: GamePerson): (r: int)
    ensures 0 <= r < Pow2(NibbleWidth)
  {
    Read(p.f3, LowNibbleShift, NibbleWidth)
  }

  function Strength(p: GamePerson): (r: int)
    ensures 0 <= r < Pow2(NibbleWidth)
  {
    Read(p.f3, HighNibbleShift, NibbleWidth)
  }

  function Experience(p: GamePerson): (r: int)
    ensures 0 <= r < Pow2(NibbleWidth)
  {
    Read(p.f4, LowNibbleShift, NibbleWidth)
  }

  /** Level() as written: it reads the high nibble of f3, not of f4. */
  function Level(p: GamePerson): (r: int)
    ensures 0 <= r < Pow2(NibbleWidth)
  {
    Read(p.f3, HighNibbleShift, NibbleWidth)
  }

  /** A one-bit run reads as 1 exactly when that bit is set. */
  lemma ReadBit(w: seq<bool>, bit: nat)
    requires bit < |w|
    ensures Read(w, bit, 1) != 0 <==> w[bit]
  {
    assert w[bit..bit + 1] == [w[bit]];
    assert w[bit..bit + 1][1..] == [];
  }

  /** HasHouse(), HasGun() and HasFamilty() test one bit of f2 each (the
      last keeps its Go spelling). */
  function HasHouse(p: GamePerson): (b: bool)
    ensures b <==> p.f2[HouseBit]
  {
    ReadBit(p.f2, HouseBit);
    Read(p.f2, HouseBit, 1) != 0
  }

  function HasGun(p: GamePerson): (b: bool)
    ensures b <==> p.f2[GunBit]
  {
    ReadBit(p.f2, GunBit);
    Read(p.f2, GunBit, 1) != 0
  }

  function HasFamilty(p: GamePerson): (b: bool)
    ensures b <==> p.f2[FamilyBit]
  {
    ReadBit(p.f2, FamilyBit);
    Read(p.f2, FamilyBit, 1) != 0
  }

  /** Type() reads the two type bits. */
  function Type(p: GamePerson): (r: int)
    ensures 0 <= r < Pow2(TypeWidth)
  {
    Read(p.f2, TypeShift, TypeWidth)
  }

  /** The level getter reading the word WithLevel writes. */
  function LevelOfF4(p: GamePerson): int { Read(p.f4, HighNibbleShift, NibbleWidth) }

  // What each option does.

  /** WithName stores the first min(42, |text|) bytes and their count, so
      Name() returns exactly that prefix; only the buffer and f1 change, and the
      mana bits of f1 are kept. */
  lemma NameOption(p: GamePerson, text: seq<Byte>)
    ensures var r := Apply(p, WithName(text));
      && NameFits(r) && Name(r) == text[..Min(NameCapacity, |text|)]
      && Mana(r) == Mana(p) && r == p.(name := r.name, f1 := r.f1)
  {
    var size := Min(NameCapacity, |text|);
    assert Pow2(6) == 64;
    ReadWrite(p.f1, NameLenShift, NameLenWidth, size);
    ReadOther(p.f1, NameLenShift, NameLenWidth, size, ManaShift, ManaWidth);
  }

  /** WithMana(m) with 0 <= m <= 1000 sets the mana bits to m and keeps the
      name length; otherwise nothing changes. */
  lemma ManaOption(p: GamePerson, m: int)
    ensures var r := Apply(p, WithMana(m));
      if 0 <= m <= 1000 then Mana(r) == m && NameLen(r) == NameLen(p) && r == p.(f1 := r.f1)
      else r == p
  {
    if 0 <= m <= 1000 {
      assert Pow2(10) == 1024;
      ReadWrite(p.f1, ManaShift, ManaWidth, m);
      ReadOther(p.f1, ManaShift, ManaWidth, m, NameLenShift, NameLenWidth);
    }
  }

  /** WithHealth(h) with 0 <= h <= 1000 sets the health bits and keeps the
      house, gun, family and type bits; otherwise nothing changes. */
  lemma HealthOption(p: GamePerson, h: int)
    ensures var r := Apply(p, WithHealth(h));
      if 0 <= h <= 1000 then
        && Health(r) == h && HasHouse(r) == HasHouse(p) && HasGun(r) == HasGun(p)
        && HasFamilty(r) == HasFamilty(p) && Type(r) == Type(p) && r == p.(f2 := r.f2)
      else r == p
  {
    if 0 <= h <= 1000 {
      assert Pow2(10) == 1024;
      ReadWrite(p.f2, HealthShift, HealthWidth, h);
      ReadOther(p.f2, HealthShift, HealthWidth, h, HouseBit, 1);
      ReadOther(p.f2, HealthShift, HealthWidth, h, GunBit, 1);
      ReadOther(p.f2, HealthShift, HealthWidth, h, FamilyBit, 1);
      ReadOther(p.f2, HealthShift, HealthWidth, h, TypeShift, TypeWidth);
    }
  }

  /** WithRespect(v) with 0 <= v <= 10 writes the low nibble of f3 and keeps
      the strength nibble; otherwise nothing changes. */
  lemma RespectOption(p: GamePerson, v: int)
    ensures var r := Apply(p, WithRespect(v));
      if 0 <= v <= 10 then Respect(r) == v && Strength(r) == Strength(p) && r == p.(f3 := r.f3)
      else r == p
  {
    if 0 <= v <= 10 {
      assert Pow2(4) == 16;
      ReadWrite(p.f3, LowNibbleShift, NibbleWidth, v);
      ReadOther(p.f3, LowNibbleShift, NibbleWidth, v, HighNibbleShift, NibbleWidth);
    }
  }

  /** WithStrength(v) with 0 <= v <= 10 writes the high nibble of f3 and keeps
      the respect nibble; otherwise nothing changes. */
  lemma StrengthOption(p: GamePerson, v: int)
    ensures var r := Apply(p, WithStrength(v));
      if 0 <= v <= 10 then Strength(r) == v && Respect(r) == Respect(p) && r == p.(f3 := r.f3)
      else r == p
  {
    if 0 <= v <= 10 {
      assert Pow2(4) == 16;
      ReadWrite(p.f3, HighNibbleShift, NibbleWidth, v);
      ReadOther(p.f3, HighNibbleShift, NibbleWidth, v, LowNibbleShift, NibbleWidth);
    }
  }

  /** WithExperience(v) with 0 <= v <= 10 writes the low nibble of f4 and
      keeps the level nibble; otherwise nothing changes. */
  lemma ExperienceOption(p: GamePerson, v: int)
    ensures var r := Apply(p, WithExperience(v));
      if 0 <= v <= 10 then Experience(r) == v && LevelOfF4(r) == LevelOfF4(p) && r == p.(f4 := r.f4)
      else r == p
  {
    if 0 <= v <= 10 {
      assert Pow2(4) == 16;
      ReadWrite(p.f4, LowNibbleShift, NibbleWidth, v);
      ReadOther(p.f4, LowNibbleShift, NibbleWidth, v, HighNibbleShift, NibbleWidth);
    }
  }

  /** WithLevel(v) with 0 <= v <= 10 writes the high nibble of f4 and keeps
      the experience nibble; otherwise nothing changes. Read back through the
      f4 getter it round-trips. */
  lemma LevelOption(p: GamePerson, v: int)
    ensures var r := Apply(p, WithLevel(v));
      if 0 <= v <= 10 then LevelOfF4(r) == v && Experience(r) == Experience(p) && r == p.(f4 := r.f4)
      else r == p
  {
    if 0 <= v <= 10 {
      assert Pow2(4) == 16;
      ReadWrite(p.f4, HighNibbleShift, NibbleWidth, v);
      ReadOther(p.f4, HighNibbleShift, NibbleWidth, v, LowNibbleShift, NibbleWidth);
    }
  }

  /** Level() as written always equals Strength(): both read the high nibble of f3. */
  lemma LevelIsStrength(p: GamePerson)
    ensures Level(p) == Strength(p)
  {
  }

  /** As written, WithLevel(5) on the zero person is not read back by Level(). */
  lemma LevelNotReadBack()
    ensures LevelOfF4(Apply(Zero, WithLevel(5))) == 5
    ensures Level(Apply(Zero, WithLevel(5))) == 0
  {
    LevelOption(Zero, 5);
    assert Apply(Zero, WithLevel(5)).f3 == Zero.f3;
    ValueOfClear(Zero.f3[HighNibbleShift..HighNibbleShift + NibbleWidth]);
  }

  /** Setting a flag bit sets it, keeps health, the other bits and the type,
      and setting it again changes nothing. */
  lemma FlagKeeps(p: GamePerson, bit: nat)
    requires bit == HouseBit || bit == GunBit || bit == FamilyBit
    ensures var r := SetFlag(p, bit);
      && Read(r.f2, bit, 1) != 0 && Health(r) == Health(p) && Type(r) == Type(p)
      && forall other :: 10 <= other <= 12 && other != bit ==> Read(r.f2, other, 1) == Read(p.f2, other, 1)
    ensures SetFlag(SetFlag(p, bit), bit) == SetFlag(p, bit)
  {
    assert Pow2(1) == 2;
    ReadWrite(p.f2, bit, 1, 1);
    ReadOther(p.f2, bit, 1, 1, HealthShift, HealthWidth);
    ReadOther(p.f2, bit, 1, 1, TypeShift, TypeWidth);
    forall other | 10 <= other <= 12 && other != bit
      ensures Read(SetFlag(p, bit).f2, other, 1) == Read(p.f2, other, 1)
    {
      ReadOther(p.f2, bit, 1, 1, other, 1);
    }
    WriteTwice(p.f2, bit, 1, 1, 1);
  }

  /** WithHouse sets its bit of f2, keeps health, the other flags and the
      type, and is idempotent. */
  lemma HouseOption(p: GamePerson)
    ensures var r := Apply(p, WithHouse);
      && HasHouse(r) && Health(r) == Health(p) && HasGun(r) == HasGun(p)
      && HasFamilty(r) == HasFamilty(p) && Type(r) == Type(p) && Apply(r, WithHouse) == r
  {
    FlagKeeps(p, HouseBit);
  }

  /** WithGun sets its bit of f2, keeps health, the other flags and the type,
      and is idempotent. */
  lemma GunOption(p: GamePerson)
    ensures var r := Apply(p, WithGun);
      && HasGun(r) && Health(r) == Health(p) && HasHouse(r) == HasHouse(p)
      && HasFamilty(r) == HasFamilty(p) && Type(r) == Type(p) && Apply(r, WithGun) == r
  {
    FlagKeeps(p, GunBit);
  }

  /** WithFamily sets its bit of f2, keeps health, the other flags and the
      type, and is idempotent. */
  lemma FamilyOption(p: GamePerson)
    ensures var r := Apply(p, WithFamily);
      && HasFamilty(r) && Health(r) == Health(p) && HasHouse(r) == HasHouse(p)
      && HasGun(r) == HasGun(p) && Type(r) == Type(p) && Apply(r, WithFamily) == r
  {
    FlagKeeps(p, FamilyBit);
  }

  /** WithType(t) accepts only the three person types, stores t in bits 13-14
      of f2 and keeps health and the flags; otherwise nothing changes. */
  lemma TypeOption(p: GamePerson, t: int)
    ensures var r := Apply(p, WithType(t));
      if BuilderGamePersonType <= t <= WarriorGamePersonType then
        && Type(r) == t && Health(r) == Health(p) && HasHouse(r) == HasHouse(p)
        && HasGun(r) == HasGun(p) && HasFamilty(r) == HasFamilty(p) && r == p.(f2 := r.f2)
      else r == p
  {
    if 0 <= t <= 2 {
      assert Pow2(2) == 4;
      ReadWrite(p.f2, TypeShift, TypeWidth, t);
      ReadOther(p.f2, TypeShift, TypeWidth, t, HealthShift, HealthWidth);
      ReadOther(p.f2, TypeShift, TypeWidth, t, HouseBit, 1);
      ReadOther(p.f2, TypeShift, TypeWidth, t, GunBit, 1);
      ReadOther(p.f2, TypeShift, TypeWidth, t, FamilyBit, 1);
    }
  }

  /** WithCoordinates and WithGold store their arguments truncated to 32 bits:
      each getter returns a 32-bit value congruent to the argument, and the
      argument itself when it fits. */
  lemma CoordinatesAndGoldOptions(p: GamePerson, cx: int, cy: int, cz: int, amount: int)
    ensures var r := Apply(p, WithCoordinates(cx, cy, cz));
      && (X(r) - cx) % 0x1_0000_0000 == 0 && (Y(r) - cy) % 0x1_0000_0000 == 0
      && (Z(r) - cz) % 0x1_0000_0000 == 0 && r == p.(x := r.x, y := r.y, z := r.z)
    ensures -0x8000_0000 <= cx < 0x8000_0000 ==> X(Apply(p, WithCoordinates(cx, cy, cz))) == cx
    ensures var r := Apply(p, WithGold(amount));
      0 <= Gold(r) < 0x1_0000_0000 && (Gold(r) - amount) % 0x1_0000_0000 == 0 && r == p.(gold := r.gold)
    ensures 0 <= amount < 0x1_0000_0000 ==> Gold(Apply(p, WithGold(amount))) == amount
  {
  }

  /** A later option for the same field wins. */
  lemma LaterManaWins(p: GamePerson, first: int, second: int)
    requires 0 <= second <= 1000
    ensures Mana(ApplyAll(p, [WithMana(first), WithMana(second)])) == second
  {
    var q := Apply(p, WithMana(first));
    assert ApplyAll(p, [WithMana(first), WithMana(second)]) == ApplyAll(q, [WithMana(second)]);
    assert ApplyAll(q, [WithMana(second)]) == ApplyAll(Apply(q, WithMana(second)), []);
    ManaOption(q, second);
  }

  /** No option can make the stored name length exceed the buffer. */
  lemma ApplyKeepsNameFits(p: GamePerson, opt: Option)
    requires NameFits(p)
    ensures NameFits(Apply(p, opt))
  {
    match opt
    case WithName(text) => NameOption(p, text);
    case WithMana(m) => ManaOption(p, m);
    case _ =>
  }

  lemma {:induction false} ApplyAllKeepsNameFits(p: GamePerson, opts: seq<Option>)
    requires NameFits(p)
    ensures NameFits(ApplyAll(p, opts))
    decreases |opts|
  {
    if opts != [] {
      ApplyKeepsNameFits(p, opts[0]);
      ApplyAllKeepsNameFits(Apply(p, opts[0]), opts[1..]);
    }
  }

  /** Applying one more option after a list is applying the longer list. */
  lemma {:induction false} ApplyAllSnoc(p: GamePerson, opts: seq<Option>, opt: Option)
    ensures ApplyAll(p, opts + [opt]) == Apply(ApplyAll(p, opts), opt)
    decreases |opts|
  {
    if opts == [] {
      assert [] + [opt] == [opt];
    } else {
      assert (opts + [opt])[1..] == opts[1..] + [opt];
      ApplyAllSnoc(Apply(p, opts[0]), opts[1..], opt);
    }
  }

  /** NewGamePerson: starts from the zero person and runs the options in order. */
  method NewGamePerson(options: seq<Option>) returns (res: GamePerson)
    ensures res == ApplyAll(Zero, options) && NameFits(res)
  {
    res := Zero;
    for i := 0 to |options|
      invariant res == ApplyAll(Zero, options[..i])
    {
      ApplyAllSnoc(Zero, options[..i], options[i]);
      assert options[..i + 1] == options[..i] + [options[i]];
      res := Apply(res, options[i]);
    }
    assert options[..|options|] == options;
    ValueOfClear(Zero.f1[NameLenShift..NameLenShift + NameLenWidth]);
    ApplyAllKeepsNameFits(Zero, options);
  }

  /** The name of TestGamePerson, "aaaaaaaaaaaaa_bbbbbbbbbbbbb_cccccccccccccc", as bytes. */
  const TestName: seq<Byte> := seq(13, _ => 0x61) + [0x5F] + seq(13, _ => 0x62) + [0x5F] + seq(14, _ => 0x63)

  /** The options of TestGamePerson. */
  const TestOptions: seq<Option> := [
    WithName(TestName), WithCoordinates(-0x8000_0000, 0x7FFF_FFFF, 0), WithGold(0x7FFF_FFFF),
    WithMana(1000), WithHealth(1000), WithRespect(10), WithStrength(10), WithExperience(10),
    WithLevel(10), WithHouse, WithFamily, WithType(BuilderGamePersonType)]

  /** The zero person has every bit clear. */
  lemma ZeroFields()
    ensures Mana(Zero) == 0 && NameLen(Zero) == 0 && !HasGun(Zero)
  {
    ValueOfClear(Zero.f1[ManaShift..ManaShift + ManaWidth]);
    ValueOfClear(Zero.f1[NameLenShift..NameLenShift + NameLenWidth]);
    ValueOfClear(Zero.f2[GunBit..GunBit + 1]);
  }

  /** The options of TestGamePerson, with `name` for the name: the shape the
      staged lemmas below rely on. */
  predicate TestShaped(opts: seq<Option>, name: seq<Byte>)
  {
    && |opts| == 12 && |name| <= NameCapacity
    && opts[0] == WithName(name) && opts[1] == WithCoordinates(-0x8000_0000, 0x7FFF_FFFF, 0)
    && opts[2] == WithGold(0x7FFF_FFFF) && opts[3] == WithMana(1000) && opts[4] == WithHealth(1000)
    && opts[5] == WithRespect(10) && opts[6] == WithStrength(10) && opts[7] == WithExperience(10)
    && opts[8] == WithLevel(10) && opts[9] == WithHouse && opts[10] == WithFamily
    && opts[11] == WithType(BuilderGamePersonType)
  }

  lemma StageStep(opts: seq<Option>, k: nat)
    requires k < |opts|
    ensures ApplyAll(Zero, opts[..k + 1]) == Apply(ApplyAll(Zero, opts[..k]), opts[k])
  {
    ApplyAllSnoc(Zero, opts[..k], opts[k]);
    assert opts[..k + 1] == opts[..k] + [opts[k]];
  }

  /** What TestGamePerson checks after WithName, WithCoordinates and WithGold,
      the name being `name`. */
  ghost predicate AfterThree(p: GamePerson, name: seq<Byte>)
  {
    && NameFits(p) && Name(p) == name && X(p) == -0x8000_0000 && Y(p) == 0x7FFF_FFFF
    && Z(p) == 0 && Gold(p) == 0x7FFF_FFFF && !HasGun(p)
  }

  /** ... and after WithMana(1000) and WithHealth(1000). */
  ghost predicate AfterFive(p: GamePerson, name: seq<Byte>)
  {
    AfterThree(p, name) && Mana(p) == 1000 && Health(p) == 1000
  }

  /** ... and after the four nibble options with 10. */
  ghost predicate AfterNine(p: GamePerson, name: seq<Byte>)
  {
    && AfterFive(p, name) && Respect(p) == 10 && Strength(p) == 10 && Experience(p) == 10
    && LevelOfF4(p) == 10
  }

  /** A person whose name buffer and f1 are unchanged has the same name. */
  lemma SameName(p: GamePerson, r: GamePerson)
    requires NameFits(p) && r.name == p.name && r.f1 == p.f1
    ensures NameFits(r) && Name(r) == Name(p)
  {
  }

  /** WithName, WithCoordinates and WithGold on the zero person. */
  lemma NameCoordinatesGoldStep(name: seq<Byte>)
    requires |name| <= NameCapacity
    ensures AfterThree(Apply(Apply(Apply(Zero, WithName(name)),
      WithCoordinates(-0x8000_0000, 0x7FFF_FFFF, 0)), WithGold(0x7FFF_FFFF)), name)
  {
    ZeroFields();
    var q1 := Apply(Zero, WithName(name));
    NameOption(Zero, name);
    assert name[..|name|] == name;
    var q2 := Apply(q1, WithCoordinates(-0x8000_0000, 0x7FFF_FFFF, 0));
    CoordinatesAndGoldOptions(q1, -0x8000_0000, 0x7FFF_FFFF, 0, 0x7FFF_FFFF);
    SameName(q1, q2);
    var q3 := Apply(q2, WithGold(0x7FFF_FFFF));
    CoordinatesAndGoldOptions(q2, -0x8000_0000, 0x7FFF_FFFF, 0, 0x7FFF_FFFF);
    SameName(q2, q3);
  }

  lemma TestStageThree(opts: seq<Option>, name: seq<Byte>)
    requires TestShaped(opts, name)
    ensures AfterThree(ApplyAll(Zero, opts[..3]), name)
  {
    assert opts[..0] == [];
    StageStep(opts, 0);
    StageStep(opts, 1);
    StageStep(opts, 2);
    NameCoordinatesGoldStep(name);
  }

  /** WithMana(1000), then WithHealth(1000), keep what was set before. */
  lemma ManaHealthStep(p: GamePerson, name: seq<Byte>)
    requires AfterThree(p, name)
    ensures AfterFive(Apply(Apply(p, WithMana(1000)), WithHealth(1000)), name)
  {
    var q := Apply(p, WithMana(1000));
    ManaOption(p, 1000);
    assert q.name == p.name && q.f2 == p.f2;
    assert NameFits(q) && Name(q) == Name(p);
    var r := Apply(q, WithHealth(1000));
    HealthOption(q, 1000);
    SameName(q, r);
  }

  lemma TestStageFive(opts: seq<Option>, name: seq<Byte>)
    requires TestShaped(opts, name)
    ensures AfterFive(ApplyAll(Zero, opts[..5]), name)
  {
    TestStageThree(opts, name);
    StageStep(opts, 3);
    StageStep(opts, 4);
    ManaHealthStep(ApplyAll(Zero, opts[..3]), name);
  }

  /** The four nibble options with 10 keep what was set before. */
  lemma NibblesStep(p: GamePerson, name: seq<Byte>)
    requires AfterFive(p, name)
    ensures AfterNine(Apply(Apply(Apply(Apply(p, WithRespect(10)), WithStrength(10)),
      WithExperience(10)), WithLevel(10)), name)
  {
    var q1 := Apply(p, WithRespect(10));
    RespectOption(p, 10);
    SameName(p, q1);
    var q2 := Apply(q1, WithStrength(10));
    StrengthOption(q1, 10);
    SameName(q1, q2);
    var q3 := Apply(q2, WithExperience(10));
    ExperienceOption(q2, 10);
    SameName(q2, q3);
    var q4 := Apply(q3, WithLevel(10));
    LevelOption(q3, 10);
    SameName(q3, q4);
  }

  lemma TestStageNine(opts: seq<Option>, name: seq<Byte>)
    requires TestShaped(opts, name)
    ensures AfterNine(ApplyAll(Zero, opts[..9]), name)
  {
    TestStageFive(opts, name);
    StageStep(opts, 5);
    StageStep(opts, 6);
    StageStep(opts, 7);
    StageStep(opts, 8);
    NibblesStep(ApplyAll(Zero, opts[..5]), name);
  }

  /** WithHouse, WithFamily and WithType(Builder) keep what was set before. */
  lemma FlagsTypeStep(p: GamePerson, name: seq<Byte>)
    requires AfterNine(p, name)
    ensures var r := Apply(Apply(Apply(p, WithHouse), WithFamily), WithType(BuilderGamePersonType));
      AfterNine(r, name) && HasHouse(r) && HasFamilty(r) && Type(r) == BuilderGamePersonType
  {
    var q1 := Apply(p, WithHouse);
    HouseOption(p);
    SameName(p, q1);
    var q2 := Apply(q1, WithFamily);
    FamilyOption(q1);
    SameName(q1, q2);
    var q3 := Apply(q2, WithType(BuilderGamePersonType));
    TypeOption(q2, BuilderGamePersonType);
    SameName(q2, q3);
  }

  /** All twelve options of the test's shape, with any name that fits. */
  lemma TestStageAll(opts: seq<Option>, name: seq<Byte>)
    requires TestShaped(opts, name)
    ensures var p := ApplyAll(Zero, opts);
      AfterNine(p, name) && HasHouse(p) && HasFamilty(p) && Type(p) == BuilderGamePersonType
  {
    TestStageNine(opts, name);
    StageStep(opts, 9);
    StageStep(opts, 10);
    StageStep(opts, 11);
    FlagsTypeStep(ApplyAll(Zero, opts[..9]), name);
    assert opts[..12] == opts;
  }

  /** The person TestGamePerson builds. */
  lemma TestPersonFields()
    ensures var p := ApplyAll(Zero, TestOptions);
      && NameFits(p) && Name(p) == TestName
      && X(p) == -0x8000_0000 && Y(p) == 0x7FFF_FFFF && Z(p) == 0 && Gold(p) == 0x7FFF_FFFF
      && Mana(p) == 1000 && Health(p) == 1000
      && Respect(p) == 10 && Strength(p) == 10 && Experience(p) == 10 && Level(p) == 10
      && HasHouse(p) && HasFamilty(p) && !HasGun(p) && Type(p) == BuilderGamePersonType
  {
    assert |TestName| == 42;
    assert TestShaped(TestOptions, TestName);
    TestStageAll(TestOptions, TestName);
    LevelIsStrength(ApplyAll(Zero, TestOptions));
  }

  /** TestGamePerson: every getter of the built person returns the value its
      option was given; Level() returns 10 because Strength() is 10 as well. */
  method GamePersonScenario() returns (name: seq<Byte>, x: int, y: int, z: int, gold: int,
      mana: int, health: int, respect: int, strength: int, experience: int, level: int,
      house: bool, family: bool, gun: bool, personType: int)
    ensures name == TestName && x == -0x8000_0000 && y == 0x7FFF_FFFF && z == 0 && gold == 0x7FFF_FFFF
    ensures mana == 1000 && health == 1000
    ensures respect == 10 && strength == 10 && experience == 10 && level == 10
    ensures house && family && !gun && personType == BuilderGamePersonType
  {
    var person := NewGamePerson(TestOptions);
    TestPersonFields();
    name := Name(person);
    x, y, z, gold := X(person), Y(person), Z(person), Gold(person);
    mana, health := Mana(person), Health(person);
    respect, strength, experience, level := Respect(person), Strength(person), Experience(person), Level(person);
    house, family, gun, personType := HasHouse(person), HasFamilty(person), HasGun(person), Type(person);
  }
}
