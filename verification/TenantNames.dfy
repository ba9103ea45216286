/** What belongs to one tenant: every Docker name is derived from its slug, and names
    of different slugs never meet (`_slug`, `_names`). */
module TenantNames {
  import opened Docker

  predicate SlugChar(c: char)
  {
    'a' <= c <= 'z' || '0' <= c <= '9' || c == '-'
  }

  predicate PlainSlug(s: string)
  {
    1 <= |s| <= 63 && s[0] != '-' && forall i | 0 <= i < |s| :: SlugChar(s[i])
  }

  /** What `_SLUG_RE` matches: its `$` also matches before a final newline. */
  predicate ValidSlug(s: string)
  {
    PlainSlug(s) || (s != [] && s[|s| - 1] == '\n' && PlainSlug(s[..|s| - 1]))
  }

  const LETTERS := "abcdefghijklmnopqrstuvwxyz"

  const DIGITS := "0123456789"

  /** Plain slugs, built up: a letter or digit, then up to 62 letters, digits and hyphens. */
  lemma SlugGrows(s: string, c: char)
    ensures PlainSlug([c]) <==> c in LETTERS || c in DIGITS
    ensures s != [] ==>
              (PlainSlug(s + [c]) <==> PlainSlug(s) && |s| < 63 && (c in LETTERS || c in DIGITS || c == '-'))
  {
    LettersAre(c);
    DigitsAre(c);
    var t := s + [c];
    assert t[|s|] == c && forall i | 0 <= i < |s| :: t[i] == s[i];
  }

  lemma LettersAre(c: char)
    ensures c in LETTERS <==> 'a' <= c <= 'z'
  {
    if 'a' <= c <= 'z' {
      assert LETTERS[c as int - 'a' as int] == c;
    }
  }

  lemma DigitsAre(c: char)
    ensures c in DIGITS <==> '0' <= c <= '9'
  {
    if '0' <= c <= '9' {
      assert DIGITS[c as int - '0' as int] == c;
    }
  }

  /** So the same slug with a newline behind it is another slug that is let through. */
  lemma NewlineGetsThrough(s: string)
    requires PlainSlug(s)
    ensures ValidSlug(s + "\n") && !PlainSlug(s + "\n")
  {
    assert (s + "\n")[..|s|] == s;
    assert !SlugChar((s + "\n")[|s|]);
  }

  function ContainerName(slug: string): string { "berth_pg_" + slug }

  function OldName(slug: string): string { ContainerName(slug) + "_old" }

  function NetworkName(slug: string): string { "berth_t_" + slug }

  function DataName(slug: string): string { "berth_pgdata_" + slug }

  function ScratchName(slug: string): string { "berth_scratch_" + slug }

  function WalName(slug: string): string { "berth_wal_" + slug }

  function ContainerNames(slug: string): set<string>
  {
    {ContainerName(slug), OldName(slug)}
  }

  function VolumeNames(slug: string): set<string>
  {
    {DataName(slug), ScratchName(slug), WalName(slug)}
  }

  /** A name `_set_aside` gives to a container. */
  predicate IsAside(name: string)
  {
    |name| >= 13 && name[..9] == "berth_pg_" && name[|name| - 4..] == "_old"
  }

  lemma SlugHasNoUnderscore(s: string)
    requires ValidSlug(s)
    ensures '_' !in s
  {
    forall i | 0 <= i < |s| ensures s[i] != '_' {
      if i < |s| - 1 {
        assert s[i] == s[..|s| - 1][i];
      }
    }
  }

  lemma OldIsAside(slug: string)
    ensures IsAside(OldName(slug))
  {
    var name := OldName(slug);
    assert name[..9] == "berth_pg_" && name[|name| - 4..] == "_old";
  }

  /** The name a tenant's database runs under is nobody's name for one set aside. */
  lemma ContainerIsNotAside(slug: string)
    requires ValidSlug(slug)
    ensures !IsAside(ContainerName(slug))
  {
    SlugHasNoUnderscore(slug);
    var name := ContainerName(slug);
    if |slug| >= 4 {
      assert name[|name| - 4..][0] == slug[|slug| - 4];
    }
  }

  lemma SamePrefix(prefix: string, a: string, b: string, suffix: string)
    ensures prefix + a + suffix == prefix + b + suffix <==> a == b
  {
    if prefix + a + suffix == prefix + b + suffix {
      assert |a| == |b|;
      assert a == (prefix + a + suffix)[|prefix|..|prefix| + |a|];
      assert b == (prefix + b + suffix)[|prefix|..|prefix| + |b|];
    }
  }

  lemma DifferAt(a: string, b: string, i: nat)
    requires i < |a| && i < |b| && a[i] != b[i]
    ensures a != b
  {}

  /** A container's name is never another's name set aside. */
  lemma NeverOld(a: string, b: string)
    requires ValidSlug(a)
    ensures ContainerName(a) != OldName(b)
  {
    ContainerIsNotAside(a);
    OldIsAside(b);
  }

  lemma KindsOfVolumeDiffer(a: string, b: string)
    requires a != [] && b != []
    ensures DataName(a) != ScratchName(b) && DataName(a) != WalName(b) && ScratchName(a) != WalName(b)
  {
    DifferAt(DataName(a), ScratchName(b), 6);
    DifferAt(DataName(a), WalName(b), 6);
    DifferAt(ScratchName(a), WalName(b), 6);
  }

  /** Names of different tenants never coincide, those of containers set aside
      included; and within one tenant they are distinct as well. */
  lemma NamesApart(a: string, b: string)
    requires ValidSlug(a) && ValidSlug(b)
    ensures a != b ==> ContainerNames(a) !! ContainerNames(b) && VolumeNames(a) !! VolumeNames(b)
                       && NetworkName(a) != NetworkName(b)
    ensures |ContainerNames(a)| == 2 && |VolumeNames(a)| == 3
  {
    hide IsAside;
    NeverOld(a, b);
    NeverOld(b, a);
    NeverOld(a, a);
    SamePrefix("berth_pg_", a, b, "_old");
    SamePrefix("berth_pg_", a, b, "");
    SamePrefix("berth_t_", a, b, "");
    SamePrefix("berth_pgdata_", a, b, "");
    SamePrefix("berth_scratch_", a, b, "");
    SamePrefix("berth_wal_", a, b, "");
    KindsOfVolumeDiffer(a, b);
    KindsOfVolumeDiffer(b, a);
    KindsOfVolumeDiffer(a, a);
    SizesOfSets(ContainerName(a), OldName(a), DataName(a), ScratchName(a), WalName(a));
    WithoutSuffix(a);
    WithoutSuffix(b);
    assert a != b ==> ContainerNames(a) !! ContainerNames(b);
  }

  lemma WithoutSuffix(a: string)
    ensures "berth_pg_" + a + "" == ContainerName(a) && "berth_t_" + a + "" == NetworkName(a)
    ensures "berth_pgdata_" + a + "" == DataName(a) && "berth_scratch_" + a + "" == ScratchName(a)
    ensures "berth_wal_" + a + "" == WalName(a)
  {}

  lemma SizesOfSets(a: string, b: string, c: string, d: string, e: string)
    requires a != b && c != d && d != e && c != e
    ensures |{a, b}| == 2 && |{c, d, e}| == 3
  {}

  /** Containers, volumes and networks on the server. */
  datatype World = World(daemon: Daemon, volumes: set<string>, networks: set<string>)

  /** What of the server is one tenant's. */
  function Part(w: World, slug: string): World
  {
    World(map i | i in w.daemon && w.daemon[i].name in ContainerNames(slug) :: w.daemon[i],
          w.volumes * VolumeNames(slug), w.networks * {NetworkName(slug)})
  }

  /** Only the tenant's own containers changed, if any. */
  ghost predicate OnlyOwn(d: Daemon, slug: string, d': Daemon)
  {
    && (forall i | i in d && d[i].name !in ContainerNames(slug) :: i in d' && d'[i] == d[i])
    && (forall i | i in d' && d'[i].name !in ContainerNames(slug) :: i in d && d'[i] == d[i])
  }

  /** Everything that is not this tenant's is as it was. */
  ghost predicate OthersKept(w: World, slug: string, w': World)
  {
    && OnlyOwn(w.daemon, slug, w'.daemon)
    && w'.volumes - VolumeNames(slug) == w.volumes - VolumeNames(slug)
    && w'.networks - {NetworkName(slug)} == w.networks - {NetworkName(slug)}
  }

  lemma OthersKeptTransitive(a: World, slug: string, b: World, c: World)
    requires OthersKept(a, slug, b) && OthersKept(b, slug, c)
    ensures OthersKept(a, slug, c)
  {}

  /** So every other tenant's containers, volumes and network are untouched. */
  lemma OtherTenantUntouched(w: World, slug: string, w': World, other: string)
    requires OthersKept(w, slug, w') && ValidSlug(slug) && ValidSlug(other) && slug != other
    ensures Part(w', other) == Part(w, other)
  {
    NamesApart(slug, other);
    hide ContainerNames, VolumeNames, NetworkName, ValidSlug;
    assert Part(w', other).daemon == Part(w, other).daemon;
    forall v ensures v in Part(w', other).volumes <==> v in Part(w, other).volumes {
      if v in VolumeNames(other) {
        assert v !in VolumeNames(slug);
        assert v in w'.volumes - VolumeNames(slug) <==> v in w.volumes - VolumeNames(slug);
      }
    }
    forall n ensures n in Part(w', other).networks <==> n in Part(w, other).networks {
      if n == NetworkName(other) {
        assert n in w'.networks - {NetworkName(slug)} <==> n in w.networks - {NetworkName(slug)};
      }
    }
  }
}
