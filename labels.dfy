/**
 * The training labels (train_model.py): a packet count is labelled normal,
 * at risk or high-level attack by two fixed thresholds.
 */
module Labels {
  /** Counts below this are normal. */
  const RiskFrom: int := 800
  /** Counts from this on are a high-level attack. */
  const AttackFrom: int := 1500

  /** `get_label`: 0 normal, 1 at risk, 2 high-level attack. */
  function GetLabel(x: int): (level: int)
    ensures 0 <= level <= 2
  {
    if x < RiskFrom then 0
    else if x < AttackFrom then 1
    else 2
  }

  /** Each label covers exactly its band of counts. */
  lemma LabelBands(x: int)
    ensures GetLabel(x) == 0 <==> x < 800
    ensures GetLabel(x) == 1 <==> 800 <= x < 1500
    ensures GetLabel(x) == 2 <==> 1500 <= x
  {
  }

  /** A larger count never gets a lower label. */
  lemma LabelMonotone(x: int, y: int)
    requires x <= y
    ensures GetLabel(x) <= GetLabel(y)
  {
  }
}
