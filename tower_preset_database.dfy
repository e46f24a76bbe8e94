/** TowerPresets: the database of tower presets the build menu picks from,
    looked up by index or by an index wrapped into the list. Asset loading
    and the singleton are not part of this model; the database is its list
    of presets. */
module TowerPresets {
  import opened Basics
  import opened TowerWeapons

  /** TowerWeaponPreset without its prefabs, effects and audio clips. */
  datatype TowerWeaponPreset = TowerWeaponPreset(hitMask: int, attributes: TowerWeaponAttributes)

  /** TowerPreset without its models. */
  datatype TowerPreset = TowerPreset(towerName: string, weaponPreset: TowerWeaponPreset)

  /** What a lookup ends with: a preset, null, or the IndexOutOfRangeException
      that indexing the array past its end throws. */
  datatype Lookup = Found(preset: TowerPreset) | NotFound | IndexOutOfRange

  /** TowerPresetDatabase.GetPreset as written: null for a negative index
      or one above the length, the preset otherwise, and the exception for
      an index equal to the length, which the guard lets through. */
  function GetPreset(towerPresets: seq<TowerPreset>, index: int): (r: Lookup)
    ensures index < 0 || index > |towerPresets| <==> r.NotFound?
    ensures r.IndexOutOfRange? <==> index == |towerPresets|
    ensures r.Found? ==> 0 <= index < |towerPresets| && r.preset == towerPresets[index]
  {
    if index < 0 || index > |towerPresets| then NotFound
    else if index == |towerPresets| then IndexOutOfRange
    else Found(towerPresets[index])
  }

  /** GetPreset with the bound it evidently means: null for every index
      outside the list. */
  function GetPresetChecked(towerPresets: seq<TowerPreset>, index: int): (r: Lookup)
    ensures !r.IndexOutOfRange?
    ensures r.Found? <==> 0 <= index < |towerPresets|
    ensures r.Found? ==> r.preset == towerPresets[index]
  {
    if index < 0 || index >= |towerPresets| then NotFound
    else Found(towerPresets[index])
  }

  /** The guard's off-by-one: asking for the index one past the last preset
      throws, for every list, where the checked lookup answers null. */
  lemma GetPresetThrowsAtLength(towerPresets: seq<TowerPreset>)
    ensures GetPreset(towerPresets, |towerPresets|) == IndexOutOfRange
    ensures GetPresetChecked(towerPresets, |towerPresets|) == NotFound
  {
  }

  /** Everywhere else the two lookups agree. */
  lemma GetPresetAgreesBelowLength(towerPresets: seq<TowerPreset>, index: int)
    requires index != |towerPresets|
    ensures GetPreset(towerPresets, index) == GetPresetChecked(towerPresets, index)
  {
  }

  /** TowerPresetDatabase.GetPresetIndexRelative: -1 for an empty list, 0
      for a single preset whatever was asked, and C#'s askedIndex % Length
      otherwise, which stays in the list for a non-negative asked index
      and is at most 0 for a negative one. */
  function GetPresetIndexRelative(presetCount: nat, askedIndex: int): (r: int)
    ensures presetCount == 0 ==> r == -1
    ensures presetCount == 1 ==> r == 0
    ensures presetCount >= 1 && askedIndex >= 0 ==> 0 <= r < presetCount
    ensures presetCount >= 2 && askedIndex < 0 ==> -(presetCount as int) < r <= 0
    ensures presetCount >= 2 ==> askedIndex == presetCount * CsDiv(askedIndex, presetCount) + r
  {
    if presetCount == 0 then -1
    else if presetCount == 1 then 0
    else CsRem(askedIndex, presetCount)
  }

  /** A wrapped non-negative index always finds a preset with the checked
      lookup, and with the lookup as written too. */
  lemma WrappedIndexFindsPreset(towerPresets: seq<TowerPreset>, askedIndex: int)
    requires |towerPresets| > 0 && askedIndex >= 0
    ensures GetPreset(towerPresets, GetPresetIndexRelative(|towerPresets|, askedIndex)).Found?
    ensures GetPresetChecked(towerPresets, GetPresetIndexRelative(|towerPresets|, askedIndex)).Found?
  {
  }

  /** The wrapped index of a list of two or more presets repeats with the
      list's length: asking one full turn further gives the same preset. */
  lemma {:induction false} WrapIsPeriodic(presetCount: nat, askedIndex: int)
    requires presetCount >= 2 && askedIndex >= 0
    ensures GetPresetIndexRelative(presetCount, askedIndex + presetCount)
         == GetPresetIndexRelative(presetCount, askedIndex)
  {
    var n := presetCount as int;
    assert CsRem(askedIndex + n, n) == (askedIndex + n) % n;
    assert CsRem(askedIndex, n) == askedIndex % n;
    var q := askedIndex / n;
    var r := askedIndex % n;
    assert askedIndex + n == n * (q + 1) + r;
    LemmaDivUnique(askedIndex + n, n, q + 1, r);
  }

  /** The remainder of a division by a positive n is the only r in [0, n)
      with a == n * q + r. */
  lemma LemmaDivUnique(a: int, n: int, q: int, r: int)
    requires n > 0 && 0 <= r < n && a == n * q + r
    ensures a % n == r
  {
    var k := q - a / n;
    assert n * k == n * q - n * (a / n);
    assert n * k == a % n - r;
    if k >= 1 {
      MulAtLeast(n, k);
    } else if k <= -1 {
      MulAtLeast(n, -k);
    }
  }

  lemma MulAtLeast(n: int, k: int)
    requires n > 0 && k >= 1
    ensures n * k >= n
  {
    assert n * k == n * (k - 1) + n;
    assert n * (k - 1) >= 0;
  }
}
