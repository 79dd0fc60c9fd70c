/** Score remarks (utils/helpers.ts). */
module Helpers {

  /** `getRemark`: the band a total score falls in, each band closed below. */
  function GetRemark(total: int): (r: string)
    ensures r == "Excellent" <==> total >= 75
    ensures r == "Good" <==> 60 <= total < 75
    ensures r == "Pass" <==> 45 <= total < 60
    ensures r == "Poor" <==> total < 45
  {
    if total >= 75 then "Excellent"
    else if total >= 60 then "Good"
    else if total >= 45 then "Pass"
    else "Poor"
  }

  /** The order of the bands, lowest first. */
  function BandRank(remark: string): nat
  {
    if remark == "Excellent" then 3
    else if remark == "Good" then 2
    else if remark == "Pass" then 1
    else 0
  }

  /** Every total gets one of the four labels. */
  lemma RemarkIsLabel(total: int)
    ensures GetRemark(total) in ["Excellent", "Good", "Pass", "Poor"]
  {
  }

  /** A higher total never gets a lower band. */
  lemma RemarkMonotone(a: int, b: int)
    requires a <= b
    ensures BandRank(GetRemark(a)) <= BandRank(GetRemark(b))
  {
  }
}
