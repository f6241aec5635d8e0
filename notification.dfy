/** The notification option set of SKQueue (SKQueue.swift:51-87): seven
    single-bit change kinds over a 32-bit raw value, the names of those kinds
    in declaration order, and the decoding of a set into its ordered names. */
module Notification {

  /** The per-name callback's argument, one case per change kind, in
      declaration order. */
  datatype SKQueueNotificationString =
    | Rename
    | Write
    | Delete
    | AttributeChange
    | SizeIncrease
    | LinkCountChange
    | AccessRevocation

  /** Position of a name in the declaration order. */
  function Ordinal(k: SKQueueNotificationString): (i: nat)
    ensures i < 7
  {
    match k
    case Rename => 0
    case Write => 1
    case Delete => 2
    case AttributeChange => 3
    case SizeIncrease => 4
    case LinkCountChange => 5
    case AccessRevocation => 6
  }

  /** Every name, in the order the enumeration declares them. */
  const DeclarationOrder: seq<SKQueueNotificationString> :=
    [Rename, Write, Delete, AttributeChange, SizeIncrease, LinkCountChange, AccessRevocation]

  /** An option set over an unsigned 32-bit raw value. */
  datatype SKQueueNotification = SKQueueNotification(rawValue: bv32)
  {
    static const None: SKQueueNotification := SKQueueNotification(0)
    static const Rename: SKQueueNotification := SKQueueNotification(0x01)
    static const Write: SKQueueNotification := SKQueueNotification(0x02)
    static const Delete: SKQueueNotification := SKQueueNotification(0x04)
    static const AttributeChange: SKQueueNotification := SKQueueNotification(0x08)
    static const SizeIncrease: SKQueueNotification := SKQueueNotification(0x10)
    static const LinkCountChange: SKQueueNotification := SKQueueNotification(0x20)
    static const AccessRevocation: SKQueueNotification := SKQueueNotification(0x40)
    static const Default: SKQueueNotification := SKQueueNotification(0x7F)

    /** Option-set membership: every bit of `member` is set here. */
    predicate Contains(member: SKQueueNotification) {
      rawValue & member.rawValue == member.rawValue
    }

    /** Option-set union, what `insert` stores in place. */
    function Union(other: SKQueueNotification): SKQueueNotification {
      SKQueueNotification(rawValue | other.rawValue)
    }

    /** The names of the set's defined bits, built by successive appends in
        declaration order. */
    method ToStrings() returns (s: seq<SKQueueNotificationString>)
      ensures s == Names(this)
    {
      FlagsAreConstants();
      s := [];
      ghost var beforeRename := s;
      if Contains(SKQueueNotification.Rename) { s := s + [SKQueueNotificationString.Rename]; }
      assert s == beforeRename + Listed(this, SKQueueNotificationString.Rename);
      ghost var beforeWrite := s;
      if Contains(SKQueueNotification.Write) { s := s + [SKQueueNotificationString.Write]; }
      assert s == beforeWrite + Listed(this, SKQueueNotificationString.Write);
      ghost var beforeDelete := s;
      if Contains(SKQueueNotification.Delete) { s := s + [SKQueueNotificationString.Delete]; }
      assert s == beforeDelete + Listed(this, SKQueueNotificationString.Delete);
      ghost var beforeAttributeChange := s;
      if Contains(SKQueueNotification.AttributeChange) { s := s + [SKQueueNotificationString.AttributeChange]; }
      assert s == beforeAttributeChange + Listed(this, SKQueueNotificationString.AttributeChange);
      ghost var beforeSizeIncrease := s;
      if Contains(SKQueueNotification.SizeIncrease) { s := s + [SKQueueNotificationString.SizeIncrease]; }
      assert s == beforeSizeIncrease + Listed(this, SKQueueNotificationString.SizeIncrease);
      ghost var beforeLinkCountChange := s;
      if Contains(SKQueueNotification.LinkCountChange) { s := s + [SKQueueNotificationString.LinkCountChange]; }
      assert s == beforeLinkCountChange + Listed(this, SKQueueNotificationString.LinkCountChange);
      ghost var beforeAccessRevocation := s;
      if Contains(SKQueueNotification.AccessRevocation) { s := s + [SKQueueNotificationString.AccessRevocation]; }
      assert s == beforeAccessRevocation + Listed(this, SKQueueNotificationString.AccessRevocation);
      NamesUnrolled(this);
    }
  }

  /** The raw values of the named constants, in declaration order. */
  const FlagBits: seq<bv32> := [0x01, 0x02, 0x04, 0x08, 0x10, 0x20, 0x40]

  /** The option-set constant that bears the name `k`. */
  function Flag(k: SKQueueNotificationString): SKQueueNotification
  {
    SKQueueNotification(FlagBits[Ordinal(k)])
  }

  /** Flag gives back the named static constants. */
  lemma FlagsAreConstants()
    ensures Flag(Rename) == SKQueueNotification.Rename
    ensures Flag(Write) == SKQueueNotification.Write
    ensures Flag(Delete) == SKQueueNotification.Delete
    ensures Flag(AttributeChange) == SKQueueNotification.AttributeChange
    ensures Flag(SizeIncrease) == SKQueueNotification.SizeIncrease
    ensures Flag(LinkCountChange) == SKQueueNotification.LinkCountChange
    ensures Flag(AccessRevocation) == SKQueueNotification.AccessRevocation
  {
  }

  /** `[k]` when `n` contains the bit named `k`, otherwise nothing. */
  function Listed(n: SKQueueNotification, k: SKQueueNotificationString): seq<SKQueueNotificationString> {
    if n.Contains(Flag(k)) then [k] else []
  }

  /** The names among `ks` whose bit `n` contains, keeping the order of `ks`. */
  function NamesIn(n: SKQueueNotification, ks: seq<SKQueueNotificationString>): seq<SKQueueNotificationString>
  {
    if ks == [] then []
    else NamesIn(n, ks[..|ks| - 1]) + Listed(n, ks[|ks| - 1])
  }

  /** The ordered list of names of a set (the result of `toStrings`). */
  function Names(n: SKQueueNotification): seq<SKQueueNotificationString> {
    NamesIn(n, DeclarationOrder)
  }

  /** NamesIn over a list extended by one name. */
  lemma NamesInSnoc(n: SKQueueNotification, ks: seq<SKQueueNotificationString>, k: SKQueueNotificationString)
    ensures NamesIn(n, ks + [k]) == NamesIn(n, ks) + Listed(n, k)
  {
    assert (ks + [k])[..|ks|] == ks;
  }

  /** The names of a set, one declaration-order step at a time. */
  lemma NamesUnrolled(n: SKQueueNotification)
    ensures Names(n) == [] + Listed(n, Rename) + Listed(n, Write) + Listed(n, Delete)
      + Listed(n, AttributeChange) + Listed(n, SizeIncrease) + Listed(n, LinkCountChange)
      + Listed(n, AccessRevocation)
  {
    var d := DeclarationOrder;
    assert d[..0] == [];
    NamesInSnoc(n, d[..0], d[0]);
    assert d[..1] == d[..0] + [d[0]];
    NamesInSnoc(n, d[..1], d[1]);
    assert d[..2] == d[..1] + [d[1]];
    NamesInSnoc(n, d[..2], d[2]);
    assert d[..3] == d[..2] + [d[2]];
    NamesInSnoc(n, d[..3], d[3]);
    assert d[..4] == d[..3] + [d[3]];
    NamesInSnoc(n, d[..4], d[4]);
    assert d[..5] == d[..4] + [d[4]];
    NamesInSnoc(n, d[..5], d[5]);
    assert d[..6] == d[..5] + [d[5]];
    NamesInSnoc(n, d[..6], d[6]);
    assert d == d[..6] + [d[6]];
  }

  /** The set whose bits are exactly those named in `ks`. */
  function FromNames(ks: seq<SKQueueNotificationString>): SKQueueNotification {
    if ks == [] then SKQueueNotification.None
    else FromNames(ks[..|ks| - 1]).Union(Flag(ks[|ks| - 1]))
  }

  /** Names listed with strictly increasing declaration positions. */
  ghost predicate StrictlyOrdered(s: seq<SKQueueNotificationString>) {
    forall i, j :: 0 <= i < j < |s| ==> Ordinal(s[i]) < Ordinal(s[j])
  }

  // ---------------------------------------------------------------------------
  // The constants

  /** None is zero, the seven named constants are the single bits 1 << 0 ...
      1 << 6 in declaration order, pairwise disjoint, and Default is their
      union. */
  lemma ConstantsAreDistinctBits()
    ensures SKQueueNotification.None.rawValue == 0
    ensures SKQueueNotification.Rename.rawValue == 1 << 0
    ensures SKQueueNotification.Write.rawValue == 1 << 1
    ensures SKQueueNotification.Delete.rawValue == 1 << 2
    ensures SKQueueNotification.AttributeChange.rawValue == 1 << 3
    ensures SKQueueNotification.SizeIncrease.rawValue == 1 << 4
    ensures SKQueueNotification.LinkCountChange.rawValue == 1 << 5
    ensures SKQueueNotification.AccessRevocation.rawValue == 1 << 6
    ensures forall i :: 0 <= i < 7 ==> Ordinal(DeclarationOrder[i]) == i
    ensures forall j, k :: j != k ==> Flag(j).rawValue & Flag(k).rawValue == 0
    ensures FromNames(DeclarationOrder) == SKQueueNotification.Default
  {
    var d := DeclarationOrder;
    assert d[..1] == [] + [d[0]];
    assert FromNames(d[..1]).rawValue == 0x01;
    assert d[..2] == d[..1] + [d[1]];
    FromNamesSnoc(d[..1], d[1]);
    assert FromNames(d[..2]).rawValue == 0x03;
    assert d[..3] == d[..2] + [d[2]];
    FromNamesSnoc(d[..2], d[2]);
    assert FromNames(d[..3]).rawValue == 0x07;
    assert d[..4] == d[..3] + [d[3]];
    FromNamesSnoc(d[..3], d[3]);
    assert FromNames(d[..4]).rawValue == 0x0F;
    assert d[..5] == d[..4] + [d[4]];
    FromNamesSnoc(d[..4], d[4]);
    assert FromNames(d[..5]).rawValue == 0x1F;
    assert d[..6] == d[..5] + [d[5]];
    FromNamesSnoc(d[..5], d[5]);
    assert FromNames(d[..6]).rawValue == 0x3F;
    assert d == d[..6] + [d[6]];
    FromNamesSnoc(d[..6], d[6]);
  }

  /** FromNames distributes over appending one name. */
  lemma FromNamesSnoc(ks: seq<SKQueueNotificationString>, k: SKQueueNotificationString)
    ensures FromNames(ks + [k]) == FromNames(ks).Union(Flag(k))
  {
    assert (ks + [k])[..|ks|] == ks;
  }

  // ---------------------------------------------------------------------------
  // Facts about 32-bit masks, one per lemma: the solver handles them one at a
  // time far more cheaply than together

  lemma OrContainsLeft(a: bv32, b: bv32)
    ensures (a | b) & a == a
  {
  }

  lemma OrCommutes(a: bv32, b: bv32)
    ensures a | b == b | a
  {
  }

  lemma OrLeast(a: bv32, b: bv32, c: bv32)
    ensures c & a == a && c & b == b ==> c & (a | b) == a | b
  {
  }

  lemma AndTransitive(a: bv32, b: bv32, c: bv32)
    ensures a & b == b && b & c == c ==> a & c == c
  {
  }

  lemma AndThenOrUnchanged(a: bv32, b: bv32)
    ensures a & b == b ==> a | b == a
  {
  }

  lemma OrUnchangedThenAnd(a: bv32, b: bv32)
    ensures a | b == a ==> a & b == b
  {
  }

  lemma MaskAddPresent(n: bv32, m: bv32, b: bv32)
    ensures n & b == b ==> (n & m) | b == n & (m | b)
  {
  }

  lemma MaskAddAbsent(n: bv32, m: bv32, b: bv32)
    ensures n & b == 0 ==> n & m == n & (m | b)
  {
  }

  lemma LowMaskKeeps(x: bv32, b: bv32)
    ensures b & 0x7F == b && x & b == b ==> (x & 0x7F) & b == b
  {
  }

  lemma LowMaskAddsNothing(x: bv32, b: bv32)
    ensures (x & 0x7F) & b == b ==> x & b == b
  {
  }

  lemma SingleBitAllOrNothing(x: bv32, b: bv32)
    requires b in FlagBits
    ensures x & b != b ==> x & b == 0
  {
  }

  lemma OrWithoutLeft(f: bv32, g: bv32, b: bv32)
    ensures (f | g) & b == b && f & b == 0 ==> g & b == b
  {
  }

  // ---------------------------------------------------------------------------
  // The named bits

  /** A name's bit is either wholly present in a set or wholly absent. */
  lemma FlagPresentOrAbsent(n: SKQueueNotification, k: SKQueueNotificationString)
    ensures !n.Contains(Flag(k)) ==> n.rawValue & Flag(k).rawValue == 0
  {
    SingleBitAllOrNothing(n.rawValue, Flag(k).rawValue);
  }

  /** A name's bit in a union comes from one of the operands. */
  lemma FlagOfUnion(f: SKQueueNotification, g: SKQueueNotification, k: SKQueueNotificationString)
    ensures f.Union(g).Contains(Flag(k)) && !f.Contains(Flag(k)) ==> g.Contains(Flag(k))
  {
    FlagPresentOrAbsent(f, k);
    OrWithoutLeft(f.rawValue, g.rawValue, Flag(k).rawValue);
  }

  /** Distinct names have distinct bits: one name's constant contains
      another's only when they are the same name. */
  lemma FlagContainsOnlyItself(j: SKQueueNotificationString, k: SKQueueNotificationString)
    ensures Flag(j).Contains(Flag(k)) ==> j == k
  {
  }

  /** Each name's bit lies within Default. */
  lemma FlagWithinDefault(k: SKQueueNotificationString)
    ensures Flag(k).rawValue & 0x7F == Flag(k).rawValue
  {
  }

  // ---------------------------------------------------------------------------
  // Union and membership

  /** A union contains its left operand. */
  lemma UnionContainsLeft(a: SKQueueNotification, b: SKQueueNotification)
    ensures a.Union(b).Contains(a)
  {
    OrContainsLeft(a.rawValue, b.rawValue);
  }

  /** A union contains its right operand. */
  lemma UnionContainsRight(a: SKQueueNotification, b: SKQueueNotification)
    ensures a.Union(b).Contains(b)
  {
    OrContainsLeft(b.rawValue, a.rawValue);
    OrCommutes(a.rawValue, b.rawValue);
  }

  /** A union is the least set containing both operands. */
  lemma UnionIsLeast(a: SKQueueNotification, b: SKQueueNotification, c: SKQueueNotification)
    requires c.Contains(a) && c.Contains(b)
    ensures c.Contains(a.Union(b))
  {
    OrLeast(a.rawValue, b.rawValue, c.rawValue);
  }

  /** Containment is transitive. */
  lemma ContainsTransitive(a: SKQueueNotification, b: SKQueueNotification, c: SKQueueNotification)
    requires a.Contains(b) && b.Contains(c)
    ensures a.Contains(c)
  {
    AndTransitive(a.rawValue, b.rawValue, c.rawValue);
  }

  /** Inserting a set that is already contained changes nothing, and only then. */
  lemma ContainsIffUnionUnchanged(a: SKQueueNotification, b: SKQueueNotification)
    ensures a.Contains(b) ==> a.Union(b) == a
    ensures a.Union(b) == a ==> a.Contains(b)
  {
    AndThenOrUnchanged(a.rawValue, b.rawValue);
    OrUnchangedThenAnd(a.rawValue, b.rawValue);
  }

  // ---------------------------------------------------------------------------
  // Decoding into names

  /** A name is listed by NamesIn exactly when it is among `ks` and its bit
      is set. */
  lemma {:induction false} NamesInMembership(n: SKQueueNotification, ks: seq<SKQueueNotificationString>, k: SKQueueNotificationString)
    ensures k in NamesIn(n, ks) <==> k in ks && n.Contains(Flag(k))
  {
    if ks != [] {
      var init := ks[..|ks| - 1];
      NamesInMembership(n, init, k);
      assert ks == init + [ks[|ks| - 1]];
    }
  }

  /** NamesIn keeps a strict order. */
  lemma {:induction false} NamesInOrdered(n: SKQueueNotification, ks: seq<SKQueueNotificationString>)
    requires StrictlyOrdered(ks)
    ensures StrictlyOrdered(NamesIn(n, ks))
  {
    if ks != [] {
      var init := ks[..|ks| - 1];
      var last := ks[|ks| - 1];
      assert StrictlyOrdered(init);
      NamesInOrdered(n, init);
      var r := NamesIn(n, init);
      forall i | 0 <= i < |r| ensures Ordinal(r[i]) < Ordinal(last) {
        NamesInMembership(n, init, r[i]);
        LastIsGreatest(ks, r[i]);
      }
    }
  }

  /** `toStrings` lists a name exactly when its bit is set. */
  lemma NamesMembership(n: SKQueueNotification, k: SKQueueNotificationString)
    ensures k in Names(n) <==> n.Contains(Flag(k))
  {
    NamesInMembership(n, DeclarationOrder, k);
    assert DeclarationOrder[Ordinal(k)] == k;
  }

  /** `toStrings` lists names in declaration order, each at most once. */
  lemma NamesOrderedAndDistinct(n: SKQueueNotification)
    ensures StrictlyOrdered(Names(n))
    ensures forall i, j :: 0 <= i < j < |Names(n)| ==> Names(n)[i] != Names(n)[j]
  {
    NamesInOrdered(n, DeclarationOrder);
  }

  /** NamesIn depends on `n` only through the bits of the names in `ks`. */
  lemma {:induction false} NamesInCongruent(n: SKQueueNotification, m: SKQueueNotification, ks: seq<SKQueueNotificationString>)
    requires forall k :: k in ks ==> (n.Contains(Flag(k)) <==> m.Contains(Flag(k)))
    ensures NamesIn(n, ks) == NamesIn(m, ks)
  {
    if ks != [] {
      NamesInCongruent(n, m, ks[..|ks| - 1]);
      assert ks[|ks| - 1] in ks;
    }
  }

  /** Bits above 0x7F contribute nothing to the names. */
  lemma HighBitsIgnored(n: SKQueueNotification)
    ensures Names(n) == Names(SKQueueNotification(n.rawValue & 0x7F))
  {
    var m := SKQueueNotification(n.rawValue & 0x7F);
    forall k | k in DeclarationOrder
      ensures n.Contains(Flag(k)) <==> m.Contains(Flag(k))
    {
      FlagWithinDefault(k);
      LowMaskKeeps(n.rawValue, Flag(k).rawValue);
      LowMaskAddsNothing(n.rawValue, Flag(k).rawValue);
    }
    NamesInCongruent(n, m, DeclarationOrder);
  }

  /** Masking `n` with one more name's bit, when `n` has that bit. */
  lemma MaskWithPresentFlag(n: SKQueueNotification, m: SKQueueNotification, k: SKQueueNotificationString)
    requires n.Contains(Flag(k))
    ensures SKQueueNotification(n.rawValue & m.rawValue).Union(Flag(k))
         == SKQueueNotification(n.rawValue & m.Union(Flag(k)).rawValue)
  {
    MaskAddPresent(n.rawValue, m.rawValue, Flag(k).rawValue);
  }

  /** Masking `n` with one more name's bit, when `n` lacks that bit. */
  lemma MaskWithAbsentFlag(n: SKQueueNotification, m: SKQueueNotification, k: SKQueueNotificationString)
    requires !n.Contains(Flag(k))
    ensures SKQueueNotification(n.rawValue & m.rawValue)
         == SKQueueNotification(n.rawValue & m.Union(Flag(k)).rawValue)
  {
    FlagPresentOrAbsent(n, k);
    MaskAddAbsent(n.rawValue, m.rawValue, Flag(k).rawValue);
  }

  /** One step of NamesInFromNames, for a name whose bit `n` has. */
  lemma NamesInFromNamesPresent(n: SKQueueNotification, init: seq<SKQueueNotificationString>, k: SKQueueNotificationString)
    requires n.Contains(Flag(k))
    requires FromNames(NamesIn(n, init)) == SKQueueNotification(n.rawValue & FromNames(init).rawValue)
    ensures FromNames(NamesIn(n, init + [k])) == SKQueueNotification(n.rawValue & FromNames(init + [k]).rawValue)
  {
    NamesInSnoc(n, init, k);
    FromNamesSnoc(init, k);
    FromNamesSnoc(NamesIn(n, init), k);
    MaskWithPresentFlag(n, FromNames(init), k);
  }

  /** One step of NamesInFromNames, for a name whose bit `n` lacks. */
  lemma NamesInFromNamesAbsent(n: SKQueueNotification, init: seq<SKQueueNotificationString>, k: SKQueueNotificationString)
    requires !n.Contains(Flag(k))
    requires FromNames(NamesIn(n, init)) == SKQueueNotification(n.rawValue & FromNames(init).rawValue)
    ensures FromNames(NamesIn(n, init + [k])) == SKQueueNotification(n.rawValue & FromNames(init + [k]).rawValue)
  {
    NamesInSnoc(n, init, k);
    assert NamesIn(n, init + [k]) == NamesIn(n, init);
    FromNamesSnoc(init, k);
    MaskWithAbsentFlag(n, FromNames(init), k);
  }

  /** Rebuilding a set from the names among `ks` keeps exactly the bits of
      `n` that the names of `ks` cover. */
  lemma {:induction false} NamesInFromNames(n: SKQueueNotification, ks: seq<SKQueueNotificationString>)
    ensures FromNames(NamesIn(n, ks)) == SKQueueNotification(n.rawValue & FromNames(ks).rawValue)
  {
    if ks != [] {
      var init, k := ks[..|ks| - 1], ks[|ks| - 1];
      assert ks == init + [k];
      NamesInFromNames(n, init);
      if n.Contains(Flag(k)) {
        NamesInFromNamesPresent(n, init, k);
      } else {
        NamesInFromNamesAbsent(n, init, k);
      }
    }
  }

  /** Names round-trip: the set built from `toStrings` is the original set
      with the bits above 0x7F cleared, hence equal to it for every subset of
      the defined bits. */
  lemma NamesRoundTrip(n: SKQueueNotification)
    ensures FromNames(Names(n)) == SKQueueNotification(n.rawValue & 0x7F)
    ensures n.rawValue & 0x7F == n.rawValue ==> FromNames(Names(n)) == n
  {
    NamesInFromNames(n, DeclarationOrder);
    ConstantsAreDistinctBits();
  }

  /** A name's bit is in the set built from `ks` only when it is listed. */
  lemma {:induction false} FromNamesContainsOnlyListed(ks: seq<SKQueueNotificationString>, k: SKQueueNotificationString)
    requires FromNames(ks).Contains(Flag(k))
    ensures k in ks
  {
    if ks != [] {
      var init, last := ks[..|ks| - 1], ks[|ks| - 1];
      assert FromNames(ks) == FromNames(init).Union(Flag(last));
      FlagOfUnion(FromNames(init), Flag(last), k);
      FlagContainsOnlyItself(last, k);
      if k != last {
        FromNamesContainsOnlyListed(init, k);
      }
    }
  }

  /** A listed name's bit is in the set built from `ks`. */
  lemma {:induction false} FromNamesContainsListed(ks: seq<SKQueueNotificationString>, k: SKQueueNotificationString)
    requires k in ks
    ensures FromNames(ks).Contains(Flag(k))
  {
    var init, last := ks[..|ks| - 1], ks[|ks| - 1];
    assert ks == init + [last];
    UnionContainsRight(FromNames(init), Flag(last));
    if k != last {
      FromNamesContainsListed(init, k);
      UnionContainsLeft(FromNames(init), Flag(last));
      ContainsTransitive(FromNames(ks), FromNames(init), Flag(k));
    }
  }

  /** In a strictly ordered list, the last name comes after all the others. */
  lemma LastIsGreatest(a: seq<SKQueueNotificationString>, k: SKQueueNotificationString)
    requires StrictlyOrdered(a) && a != []
    requires k in a[..|a| - 1]
    ensures Ordinal(k) < Ordinal(a[|a| - 1])
  {
    var p :| 0 <= p < |a| - 1 && a[..|a| - 1][p] == k;
    assert a[p] == k;
  }

  /** Two strictly ordered lists with the same names end in the same name,
      and have the same names before it. */
  lemma SameNamesWithoutLast(a: seq<SKQueueNotificationString>, x: SKQueueNotificationString,
                             b: seq<SKQueueNotificationString>, y: SKQueueNotificationString)
    requires StrictlyOrdered(a + [x]) && StrictlyOrdered(b + [y])
    requires forall k :: k in a + [x] <==> k in b + [y]
    ensures x == y
    ensures forall k :: k in a <==> k in b
  {
    assert (a + [x])[..|a|] == a && (b + [y])[..|b|] == b;
    assert x !in a by { if x in a { LastIsGreatest(a + [x], x); } }
    assert y !in b by { if y in b { LastIsGreatest(b + [y], y); } }
    assert x in b + [y];
    assert y in a + [x];
    if x != y {
      LastIsGreatest(b + [y], x);
      LastIsGreatest(a + [x], y);
    }
    forall k ensures k in a <==> k in b {
      assert k in a + [x] <==> k in b + [y];
    }
  }

  /** Dropping the last name keeps a list strictly ordered. */
  lemma InitOrdered(a: seq<SKQueueNotificationString>)
    requires StrictlyOrdered(a) && a != []
    ensures StrictlyOrdered(a[..|a| - 1])
  {
  }

  lemma FirstIsMember(a: seq<SKQueueNotificationString>)
    requires a != []
    ensures a[0] in a
  {
  }

  /** Two strictly ordered lists of the same names are equal. */
  lemma {:induction false} OrderedWithSameNamesEqual(a: seq<SKQueueNotificationString>, b: seq<SKQueueNotificationString>)
    requires StrictlyOrdered(a) && StrictlyOrdered(b)
    requires forall k :: k in a <==> k in b
    ensures a == b
    decreases |a|
  {
    if a != [] && b != [] {
      var a', b' := a[..|a| - 1], b[..|b| - 1];
      assert a == a' + [a[|a| - 1]] && b == b' + [b[|b| - 1]];
      SameNamesWithoutLast(a', a[|a| - 1], b', b[|b| - 1]);
      InitOrdered(a);
      InitOrdered(b);
      OrderedWithSameNamesEqual(a', b');
    } else if a != [] {
      FirstIsMember(a);
      assert false;
    } else if b != [] {
      FirstIsMember(b);
      assert false;
    }
  }

  /** The other round trip: decoding the set built from a strictly ordered
      list of names gives that list back. */
  lemma NamesOfFromNames(ks: seq<SKQueueNotificationString>)
    requires StrictlyOrdered(ks)
    ensures Names(FromNames(ks)) == ks
  {
    var n := FromNames(ks);
    NamesOrderedAndDistinct(n);
    forall k ensures k in Names(n) <==> k in ks {
      NamesMembership(n, k);
      if k in ks { FromNamesContainsListed(ks, k); }
      if n.Contains(Flag(k)) { FromNamesContainsOnlyListed(ks, k); }
    }
    OrderedWithSameNamesEqual(Names(n), ks);
  }
}
