/**
 * The GPIO pin allocator and the leases it hands out, as a transition system. A PinControl lives
 * while some lease refers to it; its destructor resets the pin and only then, in a separate locked
 * section, releases the entry, so other calls can run in between.
 */
module GpioSpec {
  import opened Bytes

  datatype PinConsumer = NoConsumer | Hardware | Nfc | Eth | HomeKit

  datatype PinRole =
    | SpiSck | SpiMiso | SpiMosi | SpiCs
    | I2cSda | I2cScl
    | NfcIrq | NfcVen | EthIrq | EthRst | Irq
    | Led | GpioOut | GpioIn

  datatype Mode = Disable | Input | Output | InputOutput | OutputOd | InputOutputOd

  datatype Error = INVALID_GPIO_NUM | INVALID_GPIO_DIRECTION | ALREADY_OWNED | RESTRICTED

  /** What the target chip offers: pins are `0 <= pin < max`. */
  datatype Board = Board(max: nat, restricted: set<int>, valid: set<int>, output: set<int>)

  datatype PinHolder = PinHolder(consumer: PinConsumer, role: PinRole, tag: string)

  /** `control` is the weak pointer: the PinControl last created for the pin, alive or not. */
  datatype PinEntry = PinEntry(holders: seq<PinHolder>, control: Option<nat>)

  datatype PinControl = PinControl(pin: nat, mode: Mode)

  /** A non-empty GPIOLease: its control, and the acquire call it descends from. */
  datatype Lease = Lease(control: nat, claim: nat, role: PinRole)

  /** `releases` are destructors that have reset their pin but not yet released the entry. */
  datatype World = World(
    entries: seq<PinEntry>, controls: seq<PinControl>, leases: map<nat, Lease>,
    releases: multiset<nat>, nextLease: nat, nextClaim: nat)

  datatype Claim = Claim(pin: int, mode: Mode, role: PinRole, consumer: PinConsumer, tag: string)

  predicate RoleIsPassive(role: PinRole) {
    role in {SpiSck, SpiMiso, SpiMosi, I2cSda, I2cScl}
  }

  predicate DrivesOutput(mode: Mode) {
    mode in {Output, InputOutput, OutputOd, InputOutputOd}
  }

  /** A weak pointer whose control no lease refers to any more. */
  predicate Expired(w: World, control: Option<nat>) {
    control.None? || forall l <- w.leases.Values :: l.control != control.value
  }

  predicate Shareable(role: PinRole, holders: seq<PinHolder>) {
    || holders == []
    || ((RoleIsPassive(role) || role == Led) && forall h <- holders :: h.role == role)
  }

  /** The configuration value 255, "this function has no pin", after the cast to a byte. */
  predicate NoPin(pin: int) {
    pin % 256 == 255
  }

  function BoardVerdict(b: Board, pin: int, mode: Mode): Option<Error> {
    if NoPin(pin) || pin >= b.max || pin !in b.valid then Some(INVALID_GPIO_NUM)
    else if pin in b.restricted then Some(RESTRICTED)
    else if DrivesOutput(mode) && pin !in b.output then Some(INVALID_GPIO_DIRECTION)
    else None
  }

  function Verdict(b: Board, w: World, c: Claim): Option<Error>
    requires WellFormed(b, w)
  {
    if BoardVerdict(b, c.pin, c.mode).Some? then BoardVerdict(b, c.pin, c.mode)
    else
      var entry := w.entries[c.pin];
      if entry.holders == [] || Expired(w, entry.control) || Shareable(c.role, entry.holders) then None
      else Some(ALREADY_OWNED)
  }

  predicate WellFormed(b: Board, w: World) {
    && |w.entries| == b.max
    && (forall pin <- b.valid :: 0 <= pin < b.max)
    && (forall pin <- w.releases :: pin < b.max)
    && (forall l <- w.leases.Values :: l.control < |w.controls|)
    && (forall c <- w.controls :: c.pin < b.max)
  }

  function Initial(b: Board): World {
    World(seq(b.max, _ => PinEntry([], None)), [], map[], multiset{}, 0, 0)
  }

  datatype Step =
    | Acquire(claim: Claim)
    | Copy(lease: nat)
    | Drop(lease: nat)
    | Release(pin: nat)

  predicate Enabled(w: World, step: Step) {
    match step
    case Acquire(_) => true
    case Copy(l) => l in w.leases
    case Drop(l) => l in w.leases
    case Release(pin) => pin in w.releases
  }

  /** A granted claim: an expired control is replaced, and the claim joins the holder list. */
  function Grant(w: World, c: Claim): World
    requires 0 <= c.pin < |w.entries|
  {
    var entry := w.entries[c.pin];
    var renew := Expired(w, entry.control);
    var id := if renew then |w.controls| else entry.control.value;
    w.(controls := if renew then w.controls + [PinControl(c.pin, c.mode)] else w.controls,
       entries := w.entries[c.pin := PinEntry(entry.holders + [PinHolder(c.consumer, c.role, c.tag)], Some(id))],
       leases := w.leases[w.nextLease := Lease(id, w.nextClaim, c.role)],
       nextLease := w.nextLease + 1, nextClaim := w.nextClaim + 1)
  }

  function Dropped(w: World, l: nat): World
    requires l in w.leases && w.leases[l].control < |w.controls|
  {
    var id := w.leases[l].control;
    var rest := w.(leases := w.leases - {l});
    if Expired(rest, Some(id)) then rest.(releases := w.releases + multiset{w.controls[id].pin}) else rest
  }

  function Released(w: World, pin: nat): World
    requires pin < |w.entries|
  {
    var entry := w.entries[pin];
    w.(releases := w.releases - multiset{pin},
       entries := if Expired(w, entry.control) then w.entries[pin := entry.(holders := [])] else w.entries)
  }

  function Next(b: Board, w: World, step: Step): World
    requires WellFormed(b, w) && Enabled(w, step)
  {
    match step
    case Acquire(c) => if NoPin(c.pin) || Verdict(b, w, c).Some? then w else Grant(w, c)
    case Copy(l) => w.(leases := w.leases[w.nextLease := w.leases[l]], nextLease := w.nextLease + 1)
    case Drop(l) => Dropped(w, l)
    case Release(pin) => Released(w, pin)
  }

  // ---- Safety ----

  function PinOf(w: World, l: Lease): nat
    requires l.control < |w.controls|
  {
    w.controls[l.control].pin
  }

  /** Two live leases may stand side by side: one claim, or one shareable role. */
  predicate Compatible(a: Lease, b: Lease) {
    a.claim == b.claim || (a.role == b.role && (RoleIsPassive(a.role) || a.role == Led))
  }

  /** Each pin has at most one live PinControl and only compatible live claims. */
  ghost predicate Safe(w: World) {
    && (forall l <- w.leases.Values :: l.control < |w.controls|)
    && forall a <- w.leases.Values, b <- w.leases.Values | PinOf(w, a) == PinOf(w, b) ::
         a.control == b.control && Compatible(a, b)
  }

  /** A live lease is the one its pin's entry points at, and its role is among the holders. */
  ghost predicate Anchored(w: World, l: Lease) {
    && l.control < |w.controls|
    && PinOf(w, l) < |w.entries|
    && w.entries[PinOf(w, l)].control == Some(l.control)
    && exists h <- w.entries[PinOf(w, l)].holders :: h.role == l.role
  }

  /** Holders outlast their leases only while a destructor still has to release the pin. */
  predicate Accounted(w: World, pin: nat)
    requires pin < |w.entries|
  {
    var e := w.entries[pin];
    && (e.control.Some? ==> e.control.value < |w.controls| && w.controls[e.control.value].pin == pin)
    && (e.holders != [] && Expired(w, e.control) ==> pin in w.releases)
  }

  ghost predicate Inv(b: Board, w: World) {
    && WellFormed(b, w)
    && (forall k <- w.leases :: k < w.nextLease)
    && (forall l <- w.leases.Values :: l.claim < w.nextClaim && Anchored(w, l))
    && (forall x <- w.leases.Values, y <- w.leases.Values | PinOf(w, x) == PinOf(w, y) :: Compatible(x, y))
    && (forall pin | 0 <= pin < |w.entries| :: Accounted(w, pin))
  }
}
