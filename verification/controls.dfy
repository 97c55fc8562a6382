/** What a client reports each frame: the keys held down and the frame time. */
module Controls {
  import opened Wrappers

  /** The keys the game reads from pygame's pressed-key map. */
  datatype Keys = Keys(w: bool, a: bool, s: bool, d: bool, space: bool)

  const NoKeys: Keys := Keys(false, false, false, false, false)

  /** One buffered input: pressed keys, the frame's delta time in seconds and,
      in the full game, the sender's clock (the prototype client omits it). */
  datatype Input = Input(pressed: Keys, delta: real, timestamp: Option<real>)

  /** A client sends its buffered inputs once at least this many seconds
      have passed since its last send. */
  const SendInterval: real := 0.05
}
