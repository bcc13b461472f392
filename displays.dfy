/**
 * DisplayManager: owns the active SSD1306 surfaces, rebuilds them from the
 * "displays" array of the configuration, and redraws a message on all of them.
 *
 * Whether a panel answers `begin` is an input: `begin(i)` is the outcome for
 * the spec at position i.
 */
module Displays {
  import opened Wrappers

  const SSD1306: string := "SSD1306"
  const DEFAULT_SDA: int := 21
  const DEFAULT_SCL: int := 22
  /** The text a surface shows as soon as it has been brought up. */
  const BANNER: string := "System Loaded..."

  /** One element of the configuration's "displays" array; absent pins are None. */
  datatype DisplaySpec = DisplaySpec(driver: string, sda: Option<int>, scl: Option<int>)

  /** The SDA pin: the configured one, 21 when absent. */
  function SdaOf(spec: DisplaySpec): (r: int)
    ensures spec.sda.Some? ==> r == spec.sda.value
    ensures spec.sda.None? ==> r == DEFAULT_SDA
  {
    spec.sda.GetOr(DEFAULT_SDA)
  }

  /** The SCL pin: the configured one, 22 when absent. */
  function SclOf(spec: DisplaySpec): (r: int)
    ensures spec.scl.Some? ==> r == spec.scl.value
    ensures spec.scl.None? ==> r == DEFAULT_SCL
  {
    spec.scl.GetOr(DEFAULT_SCL)
  }

  /**
   * An SSD1306 panel on the shared I2C bus; `sda`/`scl` are the pins of the
   * `Wire.begin` made just before it was built, `content` is the text it shows.
   */
  class Oled {
    const sda: int
    const scl: int
    var content: string

    constructor (sda: int, scl: int)
      ensures this.sda == sda && this.scl == scl && content == ""
    {
      this.sda := sda;
      this.scl := scl;
      content := "";
    }

    /** clearDisplay, setCursor(0,0), println(text), display. */
    method Show(text: string)
      modifies this
      ensures content == text
    {
      content := text;
    }
  }

  /**
   * The positions of the specs that end up as surfaces, in config order: those
   * whose driver is "SSD1306" and whose panel answered `begin`.
   */
  function Accepted(specs: seq<DisplaySpec>, begin: nat -> bool): (r: seq<nat>)
    ensures forall k :: 0 <= k < |r| ==> r[k] < |specs|
  {
    if specs == [] then []
    else
      var n := |specs| - 1;
      Accepted(specs[..n], begin) + (if specs[n].driver == SSD1306 && begin(n) then [n] else [])
  }

  /** Every position that becomes a surface holds an SSD1306 spec whose panel answered. */
  lemma {:induction false} AcceptedSound(specs: seq<DisplaySpec>, begin: nat -> bool, k: nat)
    requires k < |Accepted(specs, begin)|
    ensures var i := Accepted(specs, begin)[k]; specs[i].driver == SSD1306 && begin(i)
    decreases |specs|
  {
    var n := |specs| - 1;
    var front := Accepted(specs[..n], begin);
    if k < |front| {
      AcceptedSound(specs[..n], begin, k);
      assert specs[..n][front[k]] == specs[front[k]];
    }
  }

  /** The surfaces come in config order: the accepted positions strictly increase. */
  lemma {:induction false} AcceptedIncreasing(specs: seq<DisplaySpec>, begin: nat -> bool, k: nat, l: nat)
    requires k < l < |Accepted(specs, begin)|
    ensures Accepted(specs, begin)[k] < Accepted(specs, begin)[l]
    decreases |specs|
  {
    var n := |specs| - 1;
    var front := Accepted(specs[..n], begin);
    if l < |front| {
      AcceptedIncreasing(specs[..n], begin, k, l);
    }
  }

  /** Every SSD1306 spec whose panel answered becomes a surface. */
  lemma {:induction false} AcceptedComplete(specs: seq<DisplaySpec>, begin: nat -> bool, i: nat)
    requires i < |specs| && specs[i].driver == SSD1306 && begin(i)
    ensures i in Accepted(specs, begin)
    decreases |specs|
  {
    var n := |specs| - 1;
    if i < n {
      assert specs[..n][i] == specs[i];
      AcceptedComplete(specs[..n], begin, i);
    }
  }

  /** The loop of `init` visits the specs in order: one more spec, at most one more surface. */
  lemma AcceptedStep(specs: seq<DisplaySpec>, begin: nat -> bool, i: nat)
    requires i < |specs|
    ensures Accepted(specs[..i + 1], begin) ==
      Accepted(specs[..i], begin) + (if specs[i].driver == SSD1306 && begin(i) then [i] else [])
  {
    assert specs[..i + 1][..i] == specs[..i];
  }

  /** The number of specs naming the supported driver. */
  function CountSsd1306(specs: seq<DisplaySpec>): nat
  {
    if specs == [] then 0
    else CountSsd1306(specs[..|specs| - 1]) + (if specs[|specs| - 1].driver == SSD1306 then 1 else 0)
  }

  /** Never more surfaces than SSD1306 specs, whatever the panels answer. */
  lemma {:induction false} AcceptedAtMostSsd1306(specs: seq<DisplaySpec>, begin: nat -> bool)
    ensures |Accepted(specs, begin)| <= CountSsd1306(specs)
    decreases |specs|
  {
    if specs != [] {
      AcceptedAtMostSsd1306(specs[..|specs| - 1], begin);
    }
  }

  /** When every panel answers, every SSD1306 spec yields a surface. */
  lemma {:induction false} AllAnswerAllAccepted(specs: seq<DisplaySpec>, begin: nat -> bool)
    requires forall i :: 0 <= i < |specs| ==> begin(i)
    ensures |Accepted(specs, begin)| == CountSsd1306(specs)
    decreases |specs|
  {
    if specs != [] {
      AllAnswerAllAccepted(specs[..|specs| - 1], begin);
    }
  }

  class DisplayManager {
    var oleds: seq<Oled>
    /** The surfaces this manager has allocated and not yet deleted. */
    ghost var owned: set<Oled>

    ghost predicate Valid()
      reads this
    {
      && (forall k, l :: 0 <= k < l < |oleds| ==> oleds[k] != oleds[l])
      && owned == set k | 0 <= k < |oleds| :: oleds[k]
    }

    constructor ()
      ensures Valid() && oleds == []
    {
      oleds := [];
      owned := {};
    }

    /**
     * `init`: deletes every surface of the previous configuration, then brings up
     * one surface per SSD1306 spec (pins defaulting to 21/22) and keeps it,
     * showing the banner, only if its panel answered `begin`.
     */
    method Init(specs: seq<DisplaySpec>, begin: nat -> bool)
      requires Valid()
      modifies this
      ensures Valid()
      ensures |oleds| == |Accepted(specs, begin)|
      ensures forall k :: 0 <= k < |oleds| ==>
        && fresh(oleds[k])
        && oleds[k].sda == SdaOf(specs[Accepted(specs, begin)[k]])
        && oleds[k].scl == SclOf(specs[Accepted(specs, begin)[k]])
        && oleds[k].content == BANNER
    {
      ReleaseAll();
      ghost var picks: seq<nat> := [];
      var i := 0;
      while i < |specs|
        invariant 0 <= i <= |specs|
        invariant Valid()
        invariant picks == Accepted(specs[..i], begin)
        invariant |oleds| == |picks|
        invariant forall k :: 0 <= k < |oleds| ==>
          && fresh(oleds[k])
          && oleds[k].sda == SdaOf(specs[picks[k]])
          && oleds[k].scl == SclOf(specs[picks[k]])
          && oleds[k].content == BANNER
      {
        AcceptedStep(specs, begin, i);
        Add(specs[i], begin(i));
        picks := picks + (if specs[i].driver == SSD1306 && begin(i) then [i] else []);
        i := i + 1;
      }
      assert specs[..i] == specs;
    }

    /** One pass of the loop of `init`, for spec `d` whose panel answers `begin` with `ok`. */
    method Add(d: DisplaySpec, ok: bool)
      requires Valid()
      modifies this
      ensures Valid()
      ensures if d.driver == SSD1306 && ok then
          && |oleds| == |old(oleds)| + 1 && (forall k :: 0 <= k < |old(oleds)| ==> oleds[k] == old(oleds)[k])
          && var oled := oleds[|old(oleds)|];
             fresh(oled) && oled.sda == SdaOf(d) && oled.scl == SclOf(d) && oled.content == BANNER
        else oleds == old(oleds)
      ensures forall k :: 0 <= k < |old(oleds)| ==> oleds[k].content == old(oleds[k].content)
    {
      if d.driver == SSD1306 {
        var sda, scl := SdaOf(d), SclOf(d);
        var oled := new Oled(sda, scl);
        if ok {
          oled.Show(BANNER);
          ghost var prev := oleds;
          oleds := oleds + [oled];
          owned := owned + {oled};
          assert forall x :: x in owned <==> exists k :: 0 <= k < |oleds| && oleds[k] == x by {
            assert forall k :: 0 <= k < |prev| ==> oleds[k] == prev[k];
            assert oleds[|prev|] == oled;
          }
        }
      }
    }

    /** The teardown at the start of `init`: each owned surface is deleted exactly once. */
    method ReleaseAll()
      requires Valid()
      modifies this
      ensures Valid() && oleds == [] && owned == {}
    {
      var i := 0;
      while i < |oleds|
        invariant 0 <= i <= |oleds|
        invariant oleds == old(oleds)
        invariant forall k, l :: 0 <= k < l < |oleds| ==> oleds[k] != oleds[l]
        invariant owned == set k | i <= k < |oleds| :: oleds[k]
      {
        assert oleds[i] in owned;  // not yet deleted: this is its only release
        owned := owned - {oleds[i]};
        i := i + 1;
      }
      oleds := [];
    }

    /** `printMsg`: every active surface now shows `msg`; the list itself is untouched. */
    method PrintMsg(msg: string)
      modifies set k | 0 <= k < |oleds| :: oleds[k]
      ensures forall k :: 0 <= k < |oleds| ==> oleds[k].content == msg
    {
      var i := 0;
      while i < |oleds|
        invariant 0 <= i <= |oleds|
        invariant forall k :: 0 <= k < i ==> oleds[k].content == msg
      {
        oleds[i].Show(msg);
        i := i + 1;
      }
    }
  }
}
