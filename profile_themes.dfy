/** The profile themes: the fixed list of ten themes and the hash that assigns one to each
  * recipient. */
module ProfileThemes {
  import opened Wrappers

  /** A `ProfileTheme`; `unlocked` is the optional `unlocked` flag, set only on the default theme. */
  datatype Theme = Theme(
    id: string, name: string, gradient: string, avatarBg: string, textColor: string,
    unlocked: Option<bool>)

  /** `AVAILABLE_THEMES`, in order. */
  const Themes: seq<Theme> := [
    Theme("sunset", "Sunset Dreams", "from-pink-200 to-purple-200", "bg-white/20", "text-gray-800", Some(true)),
    Theme("ocean", "Ocean Breeze", "from-blue-200 to-cyan-200", "bg-white/20", "text-gray-800", None),
    Theme("forest", "Forest Adventure", "from-green-200 to-emerald-200", "bg-white/20", "text-gray-800", None),
    Theme("sunshine", "Sunshine Valley", "from-yellow-200 to-orange-200", "bg-white/20", "text-gray-800", None),
    Theme("lavender", "Lavender Fields", "from-purple-200 to-indigo-200", "bg-white/20", "text-gray-800", None),
    Theme("cherry", "Cherry Blossom", "from-rose-200 to-pink-200", "bg-white/20", "text-gray-800", None),
    Theme("mint", "Mint Chocolate", "from-teal-200 to-green-200", "bg-white/20", "text-gray-800", None),
    Theme("cosmic", "Cosmic Purple", "from-violet-300 to-purple-300", "bg-white/20", "text-gray-800", None),
    Theme("peach", "Peach Sorbet", "from-orange-200 to-rose-200", "bg-white/20", "text-gray-800", None),
    Theme("aurora", "Aurora Sky", "from-cyan-200 via-purple-200 to-pink-200", "bg-white/20", "text-gray-800", None)
  ]

  // ---------------------------------------------------------------------------------------------
  // 32-bit arithmetic of JavaScript's bitwise operators

  const TwoTo32: int := 0x1_0000_0000
  const TwoTo31: int := 0x8000_0000

  /** ECMAScript ToInt32 on an integer: the signed 32-bit value congruent to `x` modulo 2^32. */
  function ToInt32(x: int): (r: int)
    ensures -TwoTo31 <= r < TwoTo31
    ensures (x - r) % TwoTo32 == 0
  {
    var m := x % TwoTo32;
    if m >= TwoTo31 then m - TwoTo32 else m
  }

  /** Two integers congruent modulo 2^32 have the same 32-bit value. */
  lemma ToInt32Congruent(x: int, y: int)
    requires (x - y) % TwoTo32 == 0
    ensures ToInt32(x) == ToInt32(y)
  {
    var k := (x - y) / TwoTo32;
    assert x == y + k * TwoTo32;
    assert x % TwoTo32 == y % TwoTo32;
  }

  /** `h << 5`. */
  function ShiftLeft5(h: int): (r: int)
    ensures (r - 32 * h) % TwoTo32 == 0
    ensures -TwoTo31 <= r < TwoTo31
  {
    var r := ToInt32(ToInt32(h) * 32);
    assert (ToInt32(h) * 32 - 32 * h) % TwoTo32 == 0 by {
      var k := (h - ToInt32(h)) / TwoTo32;
      assert h - ToInt32(h) == k * TwoTo32;
      assert 32 * h - ToInt32(h) * 32 == (32 * k) * TwoTo32;
    }
    r
  }

  /** The code of a character as `charCodeAt` reports it. */
  function CharCode(c: char): nat {
    c as nat
  }

  /** The hash of `s`: the 32-bit value of 31·h + code after each character, starting from 0. */
  function HashOf(s: string): (h: int)
    ensures -TwoTo31 <= h < TwoTo31
  {
    if s == [] then 0 else ToInt32(31 * HashOf(s[..|s| - 1]) + CharCode(s[|s| - 1]))
  }

  /** One step of the loop, `hash = (hash << 5) - hash + char; hash = hash & hash`, is the
    * 32-bit value of 31·hash + char. */
  lemma HashStep(h: int, code: nat)
    ensures ToInt32(ShiftLeft5(h) - h + code) == ToInt32(31 * h + code)
  {
    var d := (ShiftLeft5(h) - h + code) - (31 * h + code);
    assert d == ShiftLeft5(h) - 32 * h;
    ToInt32Congruent(ShiftLeft5(h) - h + code, 31 * h + code);
  }

  /** `Math.abs(hash) % AVAILABLE_THEMES.length`. */
  function ThemeIndex(hash: int): (i: nat)
    ensures i < |Themes|
  {
    (if hash < 0 then -hash else hash) % |Themes|
  }

  /** `getRecipientTheme(recipientId)`. */
  method GetRecipientTheme(recipientId: string) returns (theme: Theme)
    ensures theme == Themes[ThemeIndex(HashOf(recipientId))]
    ensures theme in Themes
  {
    var hash := 0;
    var i := 0;
    while i < |recipientId|
      invariant 0 <= i <= |recipientId|
      invariant hash == HashOf(recipientId[..i])
    {
      var code := CharCode(recipientId[i]);
      HashStep(hash, code);
      hash := ShiftLeft5(hash) - hash + code;
      hash := ToInt32(hash);
      assert recipientId[..i + 1][..i] == recipientId[..i];
      i := i + 1;
    }
    assert recipientId[..i] == recipientId;
    theme := Themes[ThemeIndex(hash)];
  }

  /** The empty id hashes to 0 and gets the first theme, 'sunset'. */
  lemma EmptyIdGetsSunset()
    ensures HashOf("") == 0
    ensures Themes[ThemeIndex(HashOf(""))].id == "sunset"
  {
  }

  /** The hash of a one-character id is the character's code. */
  lemma SingleCharacterHash(c: char)
    ensures HashOf([c]) == CharCode(c)
  {
    assert [c][..0] == [];
  }

  // ---------------------------------------------------------------------------------------------
  // Lookups

  /** Row `i` is the first with id `themeId`. */
  predicate FirstWithId(ts: seq<Theme>, i: int, themeId: string) {
    0 <= i < |ts| && ts[i].id == themeId && forall j :: 0 <= j < i ==> ts[j].id != themeId
  }

  /** `ts.find(theme => theme.id === themeId)`. */
  function FindTheme(ts: seq<Theme>, themeId: string): (r: Option<Theme>)
    ensures r.None? <==> forall i :: 0 <= i < |ts| ==> ts[i].id != themeId
    ensures r.Some? ==> exists i :: FirstWithId(ts, i, themeId) && ts[i] == r.value
  {
    if ts == [] then None
    else if ts[0].id == themeId then
      assert FirstWithId(ts, 0, themeId);
      Some(ts[0])
    else
      var r := FindTheme(ts[1..], themeId);
      assert r.Some? ==> exists i :: FirstWithId(ts, i, themeId) && ts[i] == r.value by {
        if r.Some? {
          var i :| FirstWithId(ts[1..], i, themeId) && ts[1..][i] == r.value;
          assert FirstWithId(ts, i + 1, themeId) by {
            forall j | 0 <= j < i + 1 ensures ts[j].id != themeId {
              if j > 0 {
                assert ts[j] == ts[1..][j - 1];
              }
            }
          }
        }
      }
      r
  }

  /** `getThemeById(themeId)`. */
  function GetThemeById(themeId: string): (r: Option<Theme>)
    ensures r.None? <==> forall i :: 0 <= i < |Themes| ==> Themes[i].id != themeId
    ensures r.Some? ==> r.value in Themes && r.value.id == themeId
  {
    FindTheme(Themes, themeId)
  }

  /** The ten theme ids are pairwise distinct. */
  lemma ThemeIdsDistinct()
    ensures forall i, j :: 0 <= i < j < |Themes| ==> Themes[i].id != Themes[j].id
  {
  }

  /** Every theme is found by its own id, so a recipient's hashed theme can be looked up again. */
  lemma ThemeByIdRoundTrip(i: nat)
    requires i < |Themes|
    ensures GetThemeById(Themes[i].id) == Some(Themes[i])
  {
    ThemeIdsDistinct();
    var r := GetThemeById(Themes[i].id);
    var k :| FirstWithId(Themes, k, Themes[i].id) && Themes[k] == r.value;
  }

  /** `hasUnlockedTheme(recipientId, themeId)`: every theme is unlocked for everyone. */
  function HasUnlockedTheme(recipientId: string, themeId: string): (r: bool)
    ensures r
  {
    true
  }

  /** `getUnlockedThemes(recipientId)`: the first three themes, whoever asks. */
  function GetUnlockedThemes(recipientId: string): (r: seq<Theme>)
    ensures |r| == 3
    ensures forall i :: 0 <= i < |r| ==> r[i] == Themes[i]
  {
    Themes[..3]
  }

  /** The default theme is among the unlocked ones. */
  lemma DefaultThemeUnlocked(recipientId: string)
    ensures exists t :: t in GetUnlockedThemes(recipientId) && t.unlocked == Some(true) && t.id == "sunset"
  {
    assert GetUnlockedThemes(recipientId)[0] == Themes[0];
  }
}
