/** The daily tip on the home screen (src/features/home/Tips.ts). The day of
    the month (`new Date().getDate()`) and whether the app runs under
    Electron are parameters. */
module Tips {

  /** `Tips`: each tip is a pair of sentences. */
  const DesktopTips: seq<seq<string>> := [
    [
      "Transaction fees can be paid in any currency but they are smaller when paid with CELO.",
      "Consider keeping some CELO in your account to pay for fees. It will be used by default."
    ],
    [
      "The cUSD currency is stable and unlimited; it's worth one United States Dollar.",
      "The CELO currency is unstable and limited, like Bitcoin; its value will change over time."
    ],
    [
      "To keep your account safe, keep a copy of your Account Key in a private place.",
      "For even better security, consider using a Ledger hardware wallet."
    ],
    [
      "Your wallet Address is public; it's like your username on the Celo network. Share it with your friends!",
      "Your Account Key is a secret; always keep it private."
    ],
    [
      "Your wallet can be imported in many places at once.",
      "For example, you can import your Account Key into the Valora mobile app."
    ],
    [
      "You can lock CELO to participate in Celo network elections and governance.",
      "Voting for validators that are elected will earn you free CELO rewards."
    ]
  ]

  /** `WebTips`: the desktop tips and one warning about browser use. */
  const WebTips: seq<seq<string>> := DesktopTips + [
    [
      "Using this wallet in a browser is only safe for small accounts or Ledger users.",
      "For large accounts, downloading the Desktop App is strongly recommended."
    ]
  ]

  /** The list `useDailyTip` draws from. */
  function ActiveTips(isElectron: bool): (tips: seq<seq<string>>)
    ensures |tips| == if isElectron then 6 else 7
    ensures tips[..6] == DesktopTips
  {
    if isElectron then DesktopTips else WebTips
  }

  /** `useDailyTip`: the tip at `day mod length` of the active list. */
  function DailyTip(isElectron: bool, dayOfMonth: nat): (tip: seq<string>)
    ensures tip in ActiveTips(isElectron)
    ensures dayOfMonth < |ActiveTips(isElectron)| ==> tip == ActiveTips(isElectron)[dayOfMonth]
  {
    var tips := ActiveTips(isElectron);
    var i := dayOfMonth % |tips|;
    assert dayOfMonth < |tips| ==> i == dayOfMonth;
    tips[i]
  }

  /** The web list is the desktop list followed by exactly one extra tip. */
  lemma WebTipsExtendDesktopTips()
    ensures |WebTips| == |DesktopTips| + 1
    ensures WebTips[..|DesktopTips|] == DesktopTips
  {
  }

  /** Days a list's length apart show the same tip. */
  lemma DailyTipPeriodic(isElectron: bool, day: nat)
    ensures DailyTip(isElectron, day + |ActiveTips(isElectron)|) == DailyTip(isElectron, day)
  {
    var n := |ActiveTips(isElectron)|;
    assert (day + n) % n == day % n;
  }

  /** Every tip of the active list is shown on some day of a 31-day month. */
  lemma EveryTipIsShown(isElectron: bool, i: nat)
    requires i < |ActiveTips(isElectron)|
    ensures 1 <= i + |ActiveTips(isElectron)| <= 31
    ensures DailyTip(isElectron, i + |ActiveTips(isElectron)|) == ActiveTips(isElectron)[i]
  {
    var n := |ActiveTips(isElectron)|;
    assert (i + n) % n == i;
  }
}
