/** Genomes, the traits they decode to, terrain and directions. */
module Biology {
  import opened Words
  import opened Random

  const GENOME_LENGTH := 16

  type Genome = g: seq<byte> | |g| == GENOME_LENGTH witness seq(GENOME_LENGTH, _ => 0)

  /** Linear interpolation of a byte onto lo .. hi, rounded to the nearest integer. */
  function MapByte(b: byte, lo: int, hi: int): (r: int)
    requires lo <= hi
    ensures lo <= r <= hi
    ensures b == 0 ==> r == lo
    ensures b == 255 ==> r == hi
  {
    MapByteRange(b, hi - lo);
    lo + (2 * (b as int * (hi - lo)) + 255) / 510
  }

  lemma MapByteRange(b: byte, span: nat)
    ensures 0 <= (2 * (b as int * span) + 255) / 510 <= span
    ensures b == 0 ==> (2 * (b as int * span) + 255) / 510 == 0
    ensures b == 255 ==> (2 * (b as int * span) + 255) / 510 == span
  {
    assert 0 <= b as int * span <= 255 * span;
  }

  /** The result is the one integer nearest to the exact interpolation; there are no ties. */
  lemma MapByteNearest(b: byte, lo: int, hi: int, r: int)
    requires lo <= hi
    ensures r == MapByte(b, lo, hi) <==> -255 < 2 * (255 * (r - lo) - b as int * (hi - lo)) < 255
  {
    var exact := b as int * (hi - lo);
    var q := (2 * exact + 255) / 510;
    assert MapByte(b, lo, hi) == lo + q;
    assert 510 * q <= 2 * exact + 255 < 510 * q + 510;
  }

  datatype Traits = Traits(
    vision: int, speed: int, metabolism: int, reproductionThreshold: int, swim: int, forage: int)

  function Decode(g: Genome): (t: Traits)
    ensures 1 <= t.vision <= 5 && 1 <= t.speed <= 3 && 1 <= t.metabolism <= 5
    ensures 50 <= t.reproductionThreshold <= 200 && 0 <= t.swim <= 3 && 1 <= t.forage <= 3
  {
    Traits(MapByte(g[0], 1, 5), MapByte(g[1], 1, 3), MapByte(g[2], 1, 5),
           MapByte(g[3], 50, 200), MapByte(g[4], 0, 3), MapByte(g[5], 1, 3))
  }

  lemma MapByteMonotone(b: byte, c: byte, lo: int, hi: int)
    requires lo <= hi && b <= c
    ensures MapByte(b, lo, hi) <= MapByte(c, lo, hi)
  {
    assert b as int * (hi - lo) <= c as int * (hi - lo);
  }

  /** The first six genes are the six traits in order, more for a larger byte; the other genes are not expressed. */
  lemma GenesToTraits(g: Genome, i: nat, b: byte)
    requires i < GENOME_LENGTH && b >= g[i]
    ensures var t, t' := Decode(g), Decode(g[i := b]);
            && t'.vision >= t.vision && t'.speed >= t.speed && t'.metabolism >= t.metabolism
            && t'.reproductionThreshold >= t.reproductionThreshold && t'.swim >= t.swim && t'.forage >= t.forage
            && (i != 0 ==> t'.vision == t.vision) && (i != 1 ==> t'.speed == t.speed)
            && (i != 2 ==> t'.metabolism == t.metabolism)
            && (i != 3 ==> t'.reproductionThreshold == t.reproductionThreshold)
            && (i != 4 ==> t'.swim == t.swim) && (i != 5 ==> t'.forage == t.forage)
  {
    hide MapByte;
    MapByteMonotone(g[i], b, 1, 5);
    MapByteMonotone(g[i], b, 1, 3);
    MapByteMonotone(g[i], b, 50, 200);
    MapByteMonotone(g[i], b, 0, 3);
  }

  /** b with one bit flipped. */
  function FlipBit(b: byte, bit: nat): byte
    requires bit < 8
  {
    ((b as bv8) ^ (1 << bit)) as int
  }

  /** Flips each bit with the given probability; byte by byte, lowest bit first. */
  function Mutate(g: Genome, rng: Rng, rate: real, from: nat := 0): (Genome, Rng)
    requires from <= 8 * GENOME_LENGTH
    decreases 8 * GENOME_LENGTH - from
  {
    if from == 8 * GENOME_LENGTH then (g, rng)
    else
      var (flip, rng') := Chance(rng, rate);
      var g' := if flip then g[from / 8 := FlipBit(g[from / 8], from % 8)] else g;
      Mutate(g', rng', rate, from + 1)
  }

  /** Without a mutation rate a child has its parent's genome, and no number is drawn for it. */
  lemma {:induction false} MutateNever(g: Genome, rng: Rng, rate: real, from: nat)
    requires rate <= 0.0 && from <= 8 * GENOME_LENGTH
    ensures Mutate(g, rng, rate, from) == (g, rng)
    decreases 8 * GENOME_LENGTH - from
  {
    if from < 8 * GENOME_LENGTH {
      MutateNever(g, rng, rate, from + 1);
    }
  }

  datatype Terrain = Plain | Forest | Water | Rock

  /** The number of a terrain in snapshots and for programs. */
  function TerrainCode(t: Terrain): byte {
    match t case Plain => 0 case Forest => 1 case Water => 2 case Rock => 3
  }

  function MovementCost(t: Terrain): int {
    match t
    case Plain => 1
    case Forest => 1
    case Water => 3
    case Rock => 2
  }

  /**
   The cost of entering a cell for an agent that may swim: only water is cheaper for swimmers, down to the price of
   land.
   */
  function EntryCost(t: Terrain, swim: int): (cost: int)
    ensures t in {Plain, Forest} ==> cost == 1
    ensures t == Rock ==> cost == 2
    ensures t == Water ==> cost == if swim <= 0 then 3 else if swim == 1 then 2 else 1
  {
    var cost := MovementCost(t);
    if t == Water && swim > 0 then (if cost - swim > 1 then cost - swim else 1) else cost
  }

  function FoodRegen(t: Terrain): real {
    match t case Plain => 1.0 case Forest => 3.0 case Water => 0.2 case Rock => 0.3
  }

  function WaterRegen(t: Terrain): real {
    match t case Plain => 0.5 case Forest => 1.0 case Water => 5.0 case Rock => 0.1
  }

  function MineralRegen(t: Terrain): real {
    match t case Plain => 0.3 case Forest => 0.5 case Water => 0.1 case Rock => 3.0
  }

  datatype Direction = North | East | South | West

  function DirectionOf(i: int): Direction
    requires 0 <= i <= 3
  {
    if i == 0 then North else if i == 1 then East else if i == 2 then South else West
  }

  function OffsetX(d: Direction): int {
    match d case North => 0 case East => 1 case South => 0 case West => -1
  }

  function OffsetY(d: Direction): int {
    match d case North => -1 case East => 0 case South => 1 case West => 0
  }

  function TurnLeft(d: Direction): Direction {
    match d case North => West case West => South case South => East case East => North
  }

  function TurnRight(d: Direction): Direction {
    match d case North => East case East => South case South => West case West => North
  }

  // ---- Seasons ----

  datatype Season = Spring | Summer | Autumn | Winter

  /** Each season is a quarter of the year; years too short for quarters are spring, what is over is winter. */
  function CurrentSeason(tick: nat, yearLength: int): Season {
    if yearLength <= 0 || yearLength / 4 <= 0 then Spring
    else
      var quarter := tick % yearLength / (yearLength / 4);
      if quarter == 0 then Spring else if quarter == 1 then Summer else if quarter == 2 then Autumn else Winter
  }

  function ResourceFactor(s: Season): real {
    match s case Spring => 1.5 case Summer => 1.2 case Autumn => 0.8 case Winter => 0.4
  }

  /** The factor for regrowth; without a year there are no seasons. */
  function SeasonFactor(tick: nat, yearLength: int): (f: real)
    ensures 0.4 <= f <= 1.5
  {
    if yearLength <= 0 then 1.0 else ResourceFactor(CurrentSeason(tick, yearLength))
  }

  /** Where in the year a tick must fall for each season, and how well things grow then; short years are all spring. */
  lemma SeasonsOfTheYear(tick: nat, yearLength: int)
    ensures yearLength <= 0 ==> SeasonFactor(tick, yearLength) == 1.0
    ensures 1 <= yearLength <= 3 ==> SeasonFactor(tick, yearLength) == 1.5
    ensures yearLength >= 4 ==>
              var day, quarter := tick % yearLength, yearLength / 4;
              && (CurrentSeason(tick, yearLength) == Spring <==> day < quarter)
              && (CurrentSeason(tick, yearLength) == Summer <==> quarter <= day < 2 * quarter)
              && (CurrentSeason(tick, yearLength) == Autumn <==> 2 * quarter <= day < 3 * quarter)
              && (CurrentSeason(tick, yearLength) == Winter <==> 3 * quarter <= day)
              && SeasonFactor(tick, yearLength)
                 == (if day < quarter then 1.5 else if day < 2 * quarter then 1.2
                     else if day < 3 * quarter then 0.8 else 0.4)
  {
    if yearLength >= 4 {
      var day, quarter := tick % yearLength, yearLength / 4;
      var q := day / quarter;
      assert day == quarter * q + day % quarter;
      if q >= 3 {
        assert quarter * q >= quarter * 3;
      }
    }
  }

  /** The next year is like this one. */
  lemma SeasonsReturn(tick: nat, yearLength: int)
    requires yearLength > 0
    ensures CurrentSeason(tick + yearLength, yearLength) == CurrentSeason(tick, yearLength)
  {
    assert tick == yearLength * (tick / yearLength) + tick % yearLength;
    assert yearLength * (tick / yearLength + 1) == yearLength * (tick / yearLength) + yearLength;
    ModIs(tick + yearLength, yearLength, tick / yearLength + 1, tick % yearLength);
  }
}
