/** The direction of the two text converters (URL and base 64): encode or decode. */
module ConversionMode {
  datatype Mode = Encode | Decode

  /** `prev === 'encode' ? 'decode' : 'encode'` */
  function Toggled(m: Mode): (r: Mode)
    ensures r != m
  {
    if m == Encode then Decode else Encode
  }

  /** Toggling twice restores the mode. */
  lemma ToggledTwice(m: Mode)
    ensures Toggled(Toggled(m)) == m
  {
  }
}
