/**
  The device application's command state machine: the ranging profile and
  the target order it keeps, the three toggles a key press selects, and the
  choice of resolution byte for each transmitted frame. The sensor driver
  calls (stop, configure, start, set target order) and the screen clearing
  are opaque effects, recorded in order in a log.
 */
module AppTofis {
  import opened TofisData
  import opened StructImage
  import CheckSum
  import TofisUart

  // RANGING_SENSOR profile identifiers
  const Profile4x4Continuous: nat := 1
  const Profile4x4Autonomous: nat := 2
  const Profile8x8Continuous: nat := 3
  const Profile8x8Autonomous: nat := 4

  // VL53L8CX target orders
  const TargetOrderClosest: byte := 1
  const TargetOrderStrongest: byte := 2

  const TimingBudget: nat := 30  // ms
  const RangingFrequency: nat := 10  // Hz

  // Command keys
  const KeyResolution: byte := 0x72  // 'r'
  const KeySignalAmbient: byte := 0x73  // 's'
  const KeyClear: byte := 0x63  // 'c'
  const KeyTargetOrder: byte := 0x74  // 't'

  /** RANGING_SENSOR_ProfileConfig_t. */
  datatype ProfileConfig = ProfileConfig(
    rangingProfile: nat,
    timingBudget: nat,
    frequency: nat,
    enableAmbient: nat,  // 1 enables, 0 disables
    enableSignal: nat
  )

  /** What the application asks of the sensor driver and the terminal. */
  datatype Effect = SensorStop | SensorStart | ConfigProfile(config: ProfileConfig)
                  | SetTargetOrder(order: byte) | ClearScreen

  predicate Is8x8(profile: nat)
  {
    profile == Profile8x8Autonomous || profile == Profile8x8Continuous
  }

  predicate Is4x4(profile: nat)
  {
    profile == Profile4x4Autonomous || profile == Profile4x4Continuous
  }

  predicate IsAutonomous(profile: nat)
  {
    profile == Profile4x4Autonomous || profile == Profile8x8Autonomous
  }

  /** The ranging profile after `toggle_resolution`. */
  function ToggledProfile(profile: nat): nat
  {
    if profile == Profile4x4Autonomous then Profile8x8Autonomous
    else if profile == Profile4x4Continuous then Profile8x8Continuous
    else if profile == Profile8x8Autonomous then Profile4x4Autonomous
    else if profile == Profile8x8Continuous then Profile4x4Continuous
    else profile
  }

  /**
    Toggling the resolution swaps 4x4 and 8x8, keeps the mode (autonomous or
    continuous) and leaves any other profile alone.
   */
  lemma ToggleResolutionSwaps(profile: nat)
    ensures Is4x4(profile) <==> Is8x8(ToggledProfile(profile))
    ensures Is8x8(profile) <==> Is4x4(ToggledProfile(profile))
    ensures IsAutonomous(ToggledProfile(profile)) <==> IsAutonomous(profile)
    ensures !Is4x4(profile) && !Is8x8(profile) ==> ToggledProfile(profile) == profile
  {
  }

  /** Toggling the resolution twice restores every profile. */
  lemma ToggleResolutionTwice(profile: nat)
    ensures ToggledProfile(ToggledProfile(profile)) == profile
  {
  }

  /** `(flag) ? 0U : 1U`, as `toggle_signal_and_ambient` applies it to each enable flag. */
  function ToggledFlag(flag: nat): (toggled: nat)
    ensures toggled == 0 <==> flag != 0
    ensures toggled <= 1
  {
    if flag != 0 then 0 else 1
  }

  /** Toggling a 0/1 flag twice restores it; any other nonzero value becomes 1. */
  lemma ToggleFlagTwice(flag: nat)
    ensures ToggledFlag(ToggledFlag(flag)) == (if flag == 0 then 0 else 1)
  {
  }

  /** The target order after `toggle_target_order`: only CLOSEST becomes STRONGEST. */
  function ToggledOrder(order: byte): (toggled: byte)
    ensures toggled == TargetOrderClosest || toggled == TargetOrderStrongest
    ensures toggled == TargetOrderStrongest <==> order == TargetOrderClosest
  {
    if order == TargetOrderClosest then TargetOrderStrongest else TargetOrderClosest
  }

  /** On the two known orders toggling twice restores the order; any other value ends on STRONGEST. */
  lemma ToggleOrderTwice(order: byte)
    ensures order == TargetOrderClosest || order == TargetOrderStrongest ==> ToggledOrder(ToggledOrder(order)) == order
    ensures order != TargetOrderClosest && order != TargetOrderStrongest ==> ToggledOrder(ToggledOrder(order)) == TargetOrderStrongest
  {
  }

  /** zones_per_line, also the resolution byte of every frame: 8 for the 8x8 profiles, 4 otherwise. */
  function ZonesPerLine(profile: nat): (n: byte)
    ensures n == 8 <==> Is8x8(profile)
    ensures n == 4 <==> !Is8x8(profile)
  {
    if Is8x8(profile) then 8 else 4
  }

  /** After a resolution toggle of a 4x4 or 8x8 profile, the line width flips between 4 and 8. */
  lemma ZonesPerLineAfterToggle(profile: nat)
    requires Is4x4(profile) || Is8x8(profile)
    ensures ZonesPerLine(ToggledProfile(profile)) == 12 - ZonesPerLine(profile)
  {
    ToggleResolutionSwaps(profile);
  }

  /** The profile and target order after `handle_cmd(cmd)`. */
  function Handled(profile: ProfileConfig, order: byte, cmd: byte): (ProfileConfig, byte)
  {
    if cmd == KeyResolution then (profile.(rangingProfile := ToggledProfile(profile.rangingProfile)), order)
    else if cmd == KeySignalAmbient then
      (profile.(enableAmbient := ToggledFlag(profile.enableAmbient), enableSignal := ToggledFlag(profile.enableSignal)), order)
    else if cmd == KeyTargetOrder then (profile, ToggledOrder(order))
    else (profile, order)
  }

  /** The effects `handle_cmd(cmd)` has, given the state it leaves. */
  function HandledEffects(profile: ProfileConfig, order: byte, cmd: byte): seq<Effect>
  {
    if cmd == KeyResolution || cmd == KeySignalAmbient then [SensorStop, ConfigProfile(profile), SensorStart, ClearScreen]
    else if cmd == KeyTargetOrder then [SensorStop, SetTargetOrder(order), SensorStart]
    else if cmd == KeyClear then [ClearScreen]
    else []
  }

  /**
    Only 'r', 's' and 't' change the state; 'c' and every other key leave it
    as it is. 'r' touches only the ranging profile, 's' only the two enable
    flags, 't' only the target order.
   */
  lemma HandledChangesOnly(profile: ProfileConfig, order: byte, cmd: byte)
    ensures cmd != KeyResolution && cmd != KeySignalAmbient && cmd != KeyTargetOrder ==>
              Handled(profile, order, cmd) == (profile, order)
    ensures Handled(profile, order, cmd).0.timingBudget == profile.timingBudget
    ensures Handled(profile, order, cmd).0.frequency == profile.frequency
    ensures cmd != KeyResolution ==> Handled(profile, order, cmd).0.rangingProfile == profile.rangingProfile
    ensures cmd != KeySignalAmbient ==>
              Handled(profile, order, cmd).0.enableAmbient == profile.enableAmbient
              && Handled(profile, order, cmd).0.enableSignal == profile.enableSignal
    ensures cmd != KeyTargetOrder ==> Handled(profile, order, cmd).1 == order
  {
  }

  /** A state with 0/1 flags and a known target order. */
  predicate Normal(profile: ProfileConfig, order: byte)
  {
    profile.enableAmbient <= 1 && profile.enableSignal <= 1
    && (order == TargetOrderClosest || order == TargetOrderStrongest)
  }

  /** From a normal state, pressing the same key twice comes back to where it started. */
  lemma HandledTwiceRestores(profile: ProfileConfig, order: byte, cmd: byte)
    requires Normal(profile, order)
    ensures Normal(Handled(profile, order, cmd).0, Handled(profile, order, cmd).1)
    ensures Handled(Handled(profile, order, cmd).0, Handled(profile, order, cmd).1, cmd) == (profile, order)
  {
    ToggleResolutionTwice(profile.rangingProfile);
  }

  /** The profile the application starts ranging with, and its starting target order. */
  const InitialProfile: ProfileConfig := ProfileConfig(Profile8x8Continuous, TimingBudget, RangingFrequency, 0, 0)

  /** The application's static state: `Profile`, `TargetOrder`, and the effects so far. */
  class App {
    var profile: ProfileConfig
    var targetOrder: byte
    var effects: seq<Effect>

    /** The set-up before the ranging loop: configure, select CLOSEST, start. */
    constructor ()
      ensures profile == InitialProfile && targetOrder == TargetOrderClosest
      ensures Normal(profile, targetOrder) && ZonesPerLine(profile.rangingProfile) == 8
      ensures effects == [ConfigProfile(InitialProfile), SetTargetOrder(TargetOrderClosest), SensorStart]
    {
      profile := InitialProfile;
      targetOrder := TargetOrderClosest;
      effects := [ConfigProfile(InitialProfile), SetTargetOrder(TargetOrderClosest), SensorStart];
    }

    method ToggleResolution()
      modifies this
      ensures profile == old(profile).(rangingProfile := ToggledProfile(old(profile.rangingProfile)))
      ensures targetOrder == old(targetOrder)
      ensures effects == old(effects) + [SensorStop, ConfigProfile(profile), SensorStart]
    {
      effects := effects + [SensorStop];
      var p := profile.rangingProfile;
      if p == Profile4x4Autonomous {
        profile := profile.(rangingProfile := Profile8x8Autonomous);
      } else if p == Profile4x4Continuous {
        profile := profile.(rangingProfile := Profile8x8Continuous);
      } else if p == Profile8x8Autonomous {
        profile := profile.(rangingProfile := Profile4x4Autonomous);
      } else if p == Profile8x8Continuous {
        profile := profile.(rangingProfile := Profile4x4Continuous);
      }
      effects := effects + [ConfigProfile(profile), SensorStart];
    }

    method ToggleSignalAndAmbient()
      modifies this
      ensures profile == old(profile).(enableAmbient := ToggledFlag(old(profile.enableAmbient)),
                                       enableSignal := ToggledFlag(old(profile.enableSignal)))
      ensures targetOrder == old(targetOrder)
      ensures effects == old(effects) + [SensorStop, ConfigProfile(profile), SensorStart]
    {
      effects := effects + [SensorStop];
      profile := profile.(enableAmbient := if profile.enableAmbient != 0 then 0 else 1);
      profile := profile.(enableSignal := if profile.enableSignal != 0 then 0 else 1);
      effects := effects + [ConfigProfile(profile), SensorStart];
    }

    method ToggleTargetOrder()
      modifies this
      ensures targetOrder == ToggledOrder(old(targetOrder))
      ensures profile == old(profile)
      ensures effects == old(effects) + [SensorStop, SetTargetOrder(targetOrder), SensorStart]
    {
      effects := effects + [SensorStop];
      targetOrder := if targetOrder == TargetOrderClosest then TargetOrderStrongest else TargetOrderClosest;
      effects := effects + [SetTargetOrder(targetOrder), SensorStart];
    }

    /** `handle_cmd`: dispatches one key press. */
    method HandleCmd(cmd: byte)
      modifies this
      ensures (profile, targetOrder) == Handled(old(profile), old(targetOrder), cmd)
      ensures effects == old(effects) + HandledEffects(profile, targetOrder, cmd)
    {
      if cmd == KeyResolution {
        ToggleResolution();
        effects := effects + [ClearScreen];
      } else if cmd == KeySignalAmbient {
        ToggleSignalAndAmbient();
        effects := effects + [ClearScreen];
      } else if cmd == KeyClear {
        effects := effects + [ClearScreen];
      } else if cmd == KeyTargetOrder {
        ToggleTargetOrder();
      }
    }

    /**
      Sends one ranging result: the resolution byte of the frame is the line
      width of the current profile.
     */
    method TransmitResult(device: TofisUart.SlaveDevice, result: Result) returns (sent: seq<byte>)
      modifies device
      ensures sent == PacketImage(Packet(StartByte, ZonesPerLine(profile.rangingProfile), CheckSum.Xor(Image(result)), EndByte, result))
      ensures sent[1] == 4 || sent[1] == 8
      ensures device.packet == Packet(StartByte, ZonesPerLine(profile.rangingProfile), CheckSum.Xor(Image(result)), EndByte, result)
      ensures device.huart == old(device.huart)
    {
      var zonesPerLine: byte := if Is8x8(profile.rangingProfile) then 8 else 4;
      sent := device.SendDataLe(zonesPerLine, result);
    }
  }
}
