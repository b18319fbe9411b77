/** The mapping between link types, pcap data link types and RT types. */
module LinkTypes {
  datatype LinkType =
    | HdlcPos | Eth | Atm | Wlan | Raw | LinuxSll | Pflog | Pos | WlanPrism | Aal5 | Duck | WlanRadio
    | LlcSnap | Ppp | Metadata | NonData | OpenBsdLoop | Unknown

  const DLT_ERROR: int := -1
  const DLT_EN10MB: int := 1
  const DLT_RAW: int := 12
  const LINKTYPE_RAW: int := 101
  const RT_DATA_DLT: int := 2000
  const RT_DATA_DLT_END: int := 2999
  const RT_DATA_BPF: int := 3000
  const RT_DATA_BPF_END: int := 3999

  /** pcap_linktype_to_libtrace */
  function FromPcap(dlt: int): LinkType {
    match dlt
    case 12 => Raw
    case 101 => Raw
    case 1 => Eth
    case 105 => Wlan
    case 113 => LinuxSll
    case 117 => Pflog
    case 127 => WlanRadio
    case 11 => LlcSnap
    case 9 => Ppp
    case 50 => Pos
    case 104 => HdlcPos
    case 108 => OpenBsdLoop
    case _ => Unknown
  }

  /** libtrace_to_pcap_dlt */
  function ToDlt(link: LinkType): int {
    match link
    case Raw => DLT_RAW
    case Eth => DLT_EN10MB
    case Wlan => 105
    case LinuxSll => 113
    case Pflog => 117
    case WlanRadio => 127
    case LlcSnap => 11
    case Ppp => 9
    case HdlcPos => 104
    case Pos => 50
    case OpenBsdLoop => 108
    case _ => DLT_ERROR
  }

  /** pcap_dlt_to_pcap_linktype */
  function ToLinkType(dlt: int): int {
    if dlt == DLT_RAW then LINKTYPE_RAW else dlt
  }

  /** libtrace_to_pcap_linktype */
  function ToPcap(link: LinkType): int {
    ToLinkType(ToDlt(link))
  }

  /** pcap_linktype_to_rt */
  function ToRt(dlt: int): int {
    ToLinkType(dlt) + RT_DATA_DLT
  }

  /** rt_to_pcap_linktype; other types are refused. */
  function FromRt(rt: int): int {
    if RT_DATA_DLT <= rt < RT_DATA_DLT_END then rt - RT_DATA_DLT
    else if RT_DATA_BPF <= rt < RT_DATA_BPF_END then rt - RT_DATA_BPF
    else 0
  }

  predicate Representable(link: LinkType) {
    ToPcap(link) != DLT_ERROR
  }

  /** The numbers that pcap files have for link types. */
  lemma LinkNumbers()
    ensures ToPcap(Eth) == 1 && ToPcap(Ppp) == 9 && ToPcap(LlcSnap) == 11 && ToPcap(Pos) == 50 && ToPcap(Raw) == 101
    ensures ToPcap(HdlcPos) == 104 && ToPcap(Wlan) == 105 && ToPcap(OpenBsdLoop) == 108 && ToPcap(LinuxSll) == 113
    ensures ToPcap(Pflog) == 117 && ToPcap(WlanRadio) == 127
    ensures forall link :: Representable(link) <==>
              link in {Eth, Ppp, LlcSnap, Pos, Raw, HdlcPos, Wlan, OpenBsdLoop, LinuxSll, Pflog, WlanRadio}
  {
  }

  /** Representable link types survive the way into a pcap header, to an RT type and back. */
  lemma LinkRoundTrip(link: LinkType)
    requires Representable(link)
    ensures 0 <= ToPcap(link) < 128 && FromPcap(FromRt(ToRt(ToPcap(link)))) == link
    ensures ToRt(ToPcap(link)) == ToRt(DLT_EN10MB) <==> link == Eth
  {
  }
}
