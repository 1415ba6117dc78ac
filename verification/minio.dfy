/** The MinIO probe: cluster mode, server and drive health, and per-bucket
    occupation against quota, rendered as one summary line plus one line per
    bucket. The `mc` CLI calls that gather the facts are inputs here. */
module Minio {
  import opened Wrappers
  import opened Severity
  import opened Text

  // ------------------------------------------------------------------
  // Cluster mode
  // ------------------------------------------------------------------

  datatype ClusterCheck = ClusterCheck(text: string, status: Status)

  /** Only an `online` cluster is OK; any other mode is CRITICAL. */
  function CheckClusterMode(mode: string): (c: ClusterCheck)
    ensures c.status == OK <==> mode == "online"
    ensures c.status == CRITICAL <==> mode != "online"
    ensures c.text == "cluster: " + mode
  {
    ClusterCheck("cluster: " + mode, if mode == "online" then OK else CRITICAL)
  }

  // ------------------------------------------------------------------
  // Servers and drives
  // ------------------------------------------------------------------

  /** A drive as `mc admin info` reports it; `healing` records whether the
      drive's record carries a `healing` key at all. */
  datatype Drive = Drive(endpoint: string, state: string, healing: bool)

  datatype Server = Server(endpoint: string, state: string, drives: seq<Drive>)

  datatype MinioInfo = MinioInfo(mode: string, servers: seq<Server>)

  predicate ServerDown(s: Server) {
    s.state != "online"
  }

  /** A drive worth reporting: not `ok`, or healing whatever its state. */
  predicate DriveFlagged(d: Drive) {
    d.state != "ok" || d.healing
  }

  predicate AnyServerDown(ss: seq<Server>) {
    exists i :: 0 <= i < |ss| && ServerDown(ss[i])
  }

  predicate AnyFlagged(ds: seq<Drive>) {
    exists j :: 0 <= j < |ds| && DriveFlagged(ds[j])
  }

  predicate AnyDriveFlagged(ss: seq<Server>) {
    exists i :: 0 <= i < |ss| && AnyFlagged(ss[i].drives)
  }

  /** Severity of the servers-and-drives part: an essential unit (a server)
      reaches CRITICAL, a redundant one (a drive) at most WARNING. */
  function Rollup(serverDown: bool, driveFlagged: bool): Status {
    if serverDown then CRITICAL else if driveFlagged then WARNING else OK
  }

  function ComponentStatus(ss: seq<Server>): Status {
    Rollup(AnyServerDown(ss), AnyDriveFlagged(ss))
  }

  /** One server's contribution to the server text. */
  function ServerEntry(s: Server): string {
    " " + s.endpoint + " : " + s.state
  }

  /** One flagged drive's contribution to the drive text: the endpoint without
      its `https://` scheme, the state, and `(healing)` when healing. */
  function DriveEntry(d: Drive): string {
    " " + RemoveAll(d.endpoint, "https://") + " : " + d.state + " " + (if d.healing then "(healing)" else "")
  }

  /** Every server, in input order, whatever its state. */
  function ServerText(ss: seq<Server>): string {
    if |ss| == 0 then "" else ServerText(ss[..|ss| - 1]) + ServerEntry(ss[|ss| - 1])
  }

  /** The flagged drives of one server, in order. */
  function DriveText(ds: seq<Drive>): string {
    if |ds| == 0 then ""
    else DriveText(ds[..|ds| - 1]) + (if DriveFlagged(ds[|ds| - 1]) then DriveEntry(ds[|ds| - 1]) else "")
  }

  /** The flagged drives of all servers, server by server. */
  function DrivesText(ss: seq<Server>): string {
    if |ss| == 0 then "" else DrivesText(ss[..|ss| - 1]) + DriveText(ss[|ss| - 1].drives)
  }

  lemma AnyServerDownSnoc(ss: seq<Server>, i: nat)
    requires i < |ss|
    ensures AnyServerDown(ss[..i + 1]) <==> AnyServerDown(ss[..i]) || ServerDown(ss[i])
  {
  }

  lemma AnyDriveFlaggedSnoc(ss: seq<Server>, i: nat)
    requires i < |ss|
    ensures AnyDriveFlagged(ss[..i + 1]) <==> AnyDriveFlagged(ss[..i]) || AnyFlagged(ss[i].drives)
  {
  }

  lemma AnyFlaggedSnoc(ds: seq<Drive>, j: nat)
    requires j < |ds|
    ensures AnyFlagged(ds[..j + 1]) <==> AnyFlagged(ds[..j]) || DriveFlagged(ds[j])
  {
  }

  /** The inner drive loop of the walk: appends each flagged drive's entry
      and raises the running status to at least WARNING for it. */
  method WalkDrives(drives: seq<Drive>, text0: string, status0: Status) returns (text: string, status: Status)
    ensures text == text0 + DriveText(drives)
    ensures status == (if AnyFlagged(drives) then Max(status0, WARNING) else status0)
  {
    text := text0;
    status := status0;
    for j := 0 to |drives|
      invariant text == text0 + DriveText(drives[..j])
      invariant status == (if AnyFlagged(drives[..j]) then Max(status0, WARNING) else status0)
    {
      var drive := drives[j];
      assert drives[..j + 1][..j] == drives[..j];
      assert DriveText(drives[..j + 1]) == DriveText(drives[..j]) + (if DriveFlagged(drive) then DriveEntry(drive) else "");
      AnyFlaggedSnoc(drives, j);
      var driveEndpoint := RemoveAll(drive.endpoint, "https://");
      var driveExtraInfo := "";
      if drive.state != "ok" || drive.healing {
        status := Max(status, WARNING);
        if drive.healing {
          driveExtraInfo := "(healing)";
        }
        assert " " + driveEndpoint + " : " + drive.state + " " + driveExtraInfo == DriveEntry(drive);
        text := text + " " + driveEndpoint + " : " + drive.state + " " + driveExtraInfo;
      }
    }
    assert drives[..|drives|] == drives;
  }

  /** The server/drive walk as the probe performs it: a running worst status
      raised with `max`, and the two description strings built as it goes. */
  method CheckServerAndDrives(servers: seq<Server>) returns (serverText: string, driveText: string, status: Status)
    ensures serverText == ServerText(servers)
    ensures driveText == DrivesText(servers)
    ensures status == CRITICAL <==> AnyServerDown(servers)
    ensures status == WARNING <==> !AnyServerDown(servers) && AnyDriveFlagged(servers)
    ensures status == OK <==> !AnyServerDown(servers) && !AnyDriveFlagged(servers)
  {
    serverText := "";
    driveText := "";
    status := OK;
    for i := 0 to |servers|
      invariant serverText == ServerText(servers[..i])
      invariant driveText == DrivesText(servers[..i])
      invariant status == ComponentStatus(servers[..i])
    {
      var server := servers[i];
      assert servers[..i + 1][..i] == servers[..i];
      AnyServerDownSnoc(servers, i);
      AnyDriveFlaggedSnoc(servers, i);
      serverText := serverText + " " + server.endpoint + " : " + server.state;
      if server.state != "online" {
        status := Max(status, CRITICAL);
      }
      driveText, status := WalkDrives(server.drives, driveText, status);
    }
    assert servers[..|servers|] == servers;
  }

  /** Drive text empties out exactly when no drive of the server is flagged. */
  lemma {:induction false} DriveTextEmpty(ds: seq<Drive>)
    ensures DriveText(ds) == "" <==> !AnyFlagged(ds)
  {
    if |ds| > 0 {
      var n := |ds| - 1;
      DriveTextEmpty(ds[..n]);
      AnyFlaggedSnoc(ds, n);
      assert ds[..n + 1] == ds;
    }
  }

  /** The cluster-wide drive text is empty exactly when no drive anywhere is
      flagged: every unhealthy or healing drive is listed. */
  lemma {:induction false} DrivesTextEmpty(ss: seq<Server>)
    ensures DrivesText(ss) == "" <==> !AnyDriveFlagged(ss)
  {
    if |ss| > 0 {
      var n := |ss| - 1;
      DrivesTextEmpty(ss[..n]);
      DriveTextEmpty(ss[n].drives);
      AnyDriveFlaggedSnoc(ss, n);
      assert ss[..n + 1] == ss;
    }
  }

  /** A listed drive ends in `(healing)` exactly when it is healing; otherwise
      its entry ends in the blank left for the missing note. */
  lemma DriveEntryHealing(d: Drive)
    ensures d.healing <==> EndsWith(DriveEntry(d), "(healing)")
    ensures !d.healing ==> DriveEntry(d)[|DriveEntry(d)| - 1] == ' '
  {
    var e := DriveEntry(d);
    if !d.healing {
      assert e[|e| - 1] == ' ';
      assert e[|e| - 1] != "(healing)"[8];
    }
  }

  /** An `https://` endpoint is listed by its host part alone. */
  lemma DriveEntryStripsScheme(host: string, state: string, healing: bool)
    requires !Contains(host, "https://")
    ensures DriveEntry(Drive("https://" + host, state, healing))
         == " " + host + " : " + state + " " + (if healing then "(healing)" else "")
  {
    RemoveAllLeading("https://", host);
    RemoveAllAbsent(host, "https://");
  }

  /** Whatever the drives report, with every server online the servers-and-drives
      status stays at WARNING or below; only a server can make it CRITICAL. */
  lemma DrivesNeverCritical(ss: seq<Server>)
    ensures !AnyServerDown(ss) ==> ComponentStatus(ss) <= WARNING
    ensures ComponentStatus(ss) == CRITICAL <==> AnyServerDown(ss)
  {
  }

  /** Each drive's own severity: WARNING when flagged, else OK. */
  function DriveSeverities(ds: seq<Drive>): seq<Status> {
    if |ds| == 0 then []
    else DriveSeverities(ds[..|ds| - 1]) + [if DriveFlagged(ds[|ds| - 1]) then WARNING else OK]
  }

  /** Every unit's own severity, server then its drives: CRITICAL for a server
      that is not online, else OK. */
  function UnitSeverities(ss: seq<Server>): seq<Status> {
    if |ss| == 0 then []
    else
      var last := ss[|ss| - 1];
      UnitSeverities(ss[..|ss| - 1]) + [if ServerDown(last) then CRITICAL else OK] + DriveSeverities(last.drives)
  }

  lemma {:induction false} DriveSeveritiesWorst(ds: seq<Drive>)
    ensures Worst(DriveSeverities(ds)) == if AnyFlagged(ds) then WARNING else OK
  {
    if |ds| > 0 {
      var n := |ds| - 1;
      DriveSeveritiesWorst(ds[..n]);
      AnyFlaggedSnoc(ds, n);
      assert ds[..n + 1] == ds;
      WorstAppend(DriveSeverities(ds[..n]), [if DriveFlagged(ds[n]) then WARNING else OK]);
    }
  }

  /** The servers-and-drives status is the rollup, by maximum, of every server's
      and every drive's own severity. */
  lemma {:induction false} RollupIsWorst(ss: seq<Server>)
    ensures ComponentStatus(ss) == Worst(UnitSeverities(ss))
  {
    if |ss| > 0 {
      var n := |ss| - 1;
      var last := ss[n];
      RollupIsWorst(ss[..n]);
      AnyServerDownSnoc(ss, n);
      AnyDriveFlaggedSnoc(ss, n);
      assert ss[..n + 1] == ss;
      var own: seq<Status> := [if ServerDown(last) then CRITICAL else OK];
      WorstAppend(UnitSeverities(ss[..n]), own);
      WorstAppend(UnitSeverities(ss[..n]) + own, DriveSeverities(last.drives));
      DriveSeveritiesWorst(last.drives);
    }
  }

  // ------------------------------------------------------------------
  // Overall status and exit code
  // ------------------------------------------------------------------

  /** The summary status and exit code: the worse of the cluster mode and the
      servers-and-drives status. */
  function OverallStatus(info: MinioInfo): (s: Status)
    ensures s == Max(CheckClusterMode(info.mode).status, ComponentStatus(info.servers))
    ensures s == CRITICAL <==> info.mode != "online" || AnyServerDown(info.servers)
    ensures s == WARNING <==> info.mode == "online" && !AnyServerDown(info.servers) && AnyDriveFlagged(info.servers)
    ensures s == OK <==> info.mode == "online" && !AnyServerDown(info.servers) && !AnyDriveFlagged(info.servers)
    ensures s != UNKNOWN
  {
    Max(CheckClusterMode(info.mode).status, ComponentStatus(info.servers))
  }

  /** The first line: code, `MinIO`, label, then cluster, server and drive text. */
  function SummaryLine(info: MinioInfo): string {
    IntToString(OverallStatus(info)) + " " + SummaryText(info)
  }

  function SummaryText(info: MinioInfo): string {
    "MinIO - " + Label(OverallStatus(info)) + " - " + CheckClusterMode(info.mode).text
      + " " + ServerText(info.servers) + " " + DrivesText(info.servers)
  }

  /** A collector reading the summary line's first field gets the overall status. */
  lemma SummaryLineStatus(info: MinioInfo)
    ensures ParseNat(FirstField(SummaryLine(info))) == Some(OverallStatus(info))
  {
    FirstFieldOf(IntToString(OverallStatus(info)), SummaryText(info));
    ParseNatToString(OverallStatus(info));
  }

  // ------------------------------------------------------------------
  // Bucket occupation
  // ------------------------------------------------------------------

  /** Bytes per GiB, `1024 ** 3`. */
  const GIB: real := 1073741824.0

  /** What `mc du` reports: bytes used and number of objects. */
  datatype Usage = Usage(size: int, objects: int)

  /** What the bucket fetchers return: the raw `quota` field of `mc quota info`
      (None when missing or when the call failed) and the `mc du` usage (None
      when that call failed). */
  datatype BucketFacts = BucketFacts(name: string, quotaField: Option<int>, usage: Option<Usage>)

  /** The quota fetcher's answer: a falsy quota (missing or zero) is no quota. */
  function BucketQuota(field: Option<int>): (q: Option<int>)
    ensures q.None? <==> field.None? || field.value == 0
    ensures q.Some? ==> q == field
  {
    match field
    case Some(v) => if v != 0 then Some(v) else None
    case None => None
  }

  /** The five values a bucket check hands to the output: status, size and
      quota in GiB, usage percentage, number of objects. */
  datatype BucketResult = BucketResult(
    status: Status,
    sizeGib: Option<real>,
    quotaGib: Option<real>,
    percentage: Option<real>,
    objects: Option<int>)

  /** Python truthiness of an optional number: present and non-zero. */
  predicate Truthy(x: Option<real>) {
    x.Some? && x.value != 0.0
  }

  /** The results the output code can print without failing: a size always comes
      with an object count, and either the quota-less branch applies or a quota
      and a percentage are there to print. */
  predicate Printable(r: BucketResult) {
    r.sizeGib.Some? ==>
      && r.objects.Some?
      && ((!Truthy(r.quotaGib) && r.sizeGib.value != 0.0) || (r.quotaGib.Some? && r.percentage.Some?))
  }

  function UsagePercentage(sizeGib: real, quotaGib: real): real {
    if quotaGib > 0.0 then (sizeGib / quotaGib) * 100.0 else 0.0
  }

  /** The fixed bands: 90% and above CRITICAL, above 80% WARNING, else OK. */
  function Band(percentage: real): Status {
    if percentage >= 90.0 then CRITICAL else if percentage > 80.0 then WARNING else OK
  }

  /** Converting both figures to GiB leaves the ratio unchanged: the percentage
      times the quota in bytes is a hundred times the size in bytes. */
  lemma PercentageScaled(size: int, quota: int)
    requires quota > 0
    ensures UsagePercentage(size as real / GIB, quota as real / GIB) * quota as real == 100.0 * size as real
  {
  }

  /** Comparing `p` with `c` is comparing `p * q` with `c * q` for positive `q`. */
  lemma ScaleCompare(p: real, c: real, q: real, product: real)
    requires q > 0.0
    requires product == p * q
    ensures p >= c <==> product >= c * q
    ensures p > c <==> product > c * q
  {
  }

  /** The bands read through a percentage known only by `p * quota == 100 * size`. */
  lemma BandOfScaled(p: real, size: int, quota: int)
    requires quota > 0
    requires p * quota as real == 100.0 * size as real
    ensures Band(p) == CRITICAL <==> 10 * size >= 9 * quota
    ensures Band(p) == WARNING <==> 5 * size > 4 * quota && 10 * size < 9 * quota
    ensures Band(p) == OK <==> 5 * size <= 4 * quota
  {
    var q := quota as real;
    var s := size as real;
    ScaleCompare(p, 90.0, q, 100.0 * s);
    ScaleCompare(p, 80.0, q, 100.0 * s);
    assert p >= 90.0 <==> 10 * size >= 9 * quota;
    assert p > 80.0 <==> 5 * size > 4 * quota;
  }

  /** Bands over a positive quota, stated on the byte counts alone. */
  lemma BandCross(size: int, quota: int)
    ensures var p := UsagePercentage(size as real / GIB, quota as real / GIB);
      quota > 0 ==>
      && p * quota as real == 100.0 * size as real
      && (Band(p) == CRITICAL <==> 10 * size >= 9 * quota)
      && (Band(p) == WARNING <==> 5 * size > 4 * quota && 10 * size < 9 * quota)
      && (Band(p) == OK <==> 5 * size <= 4 * quota)
  {
    if quota > 0 {
      PercentageScaled(size, quota);
      BandOfScaled(UsagePercentage(size as real / GIB, quota as real / GIB), size, quota);
    }
  }

  /** A bucket's status from its (normalised) quota and its usage. */
  function CheckBucket(quota: Option<int>, usage: Option<Usage>): (r: BucketResult)
    ensures Printable(r)
    ensures usage.None? ==> r == BucketResult(UNKNOWN, None, None, None, None)
    ensures quota.None? && usage.Some? && usage.value.size == 0 ==> r == BucketResult(UNKNOWN, None, None, None, None)
    ensures quota.None? && usage.Some? && usage.value.size != 0 ==>
      r == BucketResult(WARNING, Some(usage.value.size as real / GIB), None, None, Some(usage.value.objects))
    ensures quota.Some? && usage.Some? ==>
      && r.status != UNKNOWN
      && r.sizeGib == Some(usage.value.size as real / GIB)
      && r.quotaGib == Some(quota.value as real / GIB)
      && r.percentage.Some?
      && r.objects == Some(usage.value.objects)
    ensures quota.Some? && quota.value > 0 && usage.Some? ==>
      && r.percentage.value * quota.value as real == 100.0 * usage.value.size as real
      && (r.status == CRITICAL <==> 10 * usage.value.size >= 9 * quota.value)
      && (r.status == WARNING <==> 5 * usage.value.size > 4 * quota.value && 10 * usage.value.size < 9 * quota.value)
      && (r.status == OK <==> 5 * usage.value.size <= 4 * quota.value)
    ensures quota.Some? && quota.value <= 0 && usage.Some? ==> r.status == OK && r.percentage == Some(0.0)
  {
    if quota.None? || usage.None? then
      if (quota.None? || quota.value == 0) && usage.Some? && usage.value.size != 0 then
        BucketResult(WARNING, Some(usage.value.size as real / GIB), None, None, Some(usage.value.objects))
      else
        BucketResult(UNKNOWN, None, None, None, None)
    else
      var sizeGib := usage.value.size as real / GIB;
      var quotaGib := quota.value as real / GIB;
      var percentage := UsagePercentage(sizeGib, quotaGib);
      BandCross(usage.value.size, quota.value);
      BucketResult(Band(percentage), Some(sizeGib), Some(quotaGib), Some(percentage), Some(usage.value.objects))
  }

  /** Under a fixed quota a fuller bucket is never reported healthier. */
  lemma {:induction false} BandMonotone(quota: int, small: Usage, large: Usage)
    requires small.size <= large.size
    ensures CheckBucket(Some(quota), Some(small)).status <= CheckBucket(Some(quota), Some(large)).status
  {
    var a := CheckBucket(Some(quota), Some(small));
    var b := CheckBucket(Some(quota), Some(large));
    if quota > 0 {
      assert a.status == CRITICAL ==> b.status == CRITICAL;
      assert a.status == WARNING ==> b.status != OK;
    }
  }

  /** A bucket with no quota set and nothing stored has no size to report and
      comes out UNKNOWN, while any stored byte makes it WARNING. */
  lemma QuotaLessBucket(field: Option<int>, usage: Usage)
    requires field.None? || field.value == 0
    ensures CheckBucket(BucketQuota(field), Some(usage)).status == (if usage.size == 0 then UNKNOWN else WARNING)
  {
  }

  // ------------------------------------------------------------------
  // Bucket lines
  // ------------------------------------------------------------------

  /** The bucket's label: `Bucket_` and the name with every `/` removed. */
  function BucketLabel(name: string): (l: string)
    ensures '/' !in l
    ensures l == "Bucket_" + Without(name, '/')
  {
    RemoveAllChar(name, '/');
    "Bucket_" + RemoveAll(name, "/")
  }

  /** Threshold part of a perf datum: warning, critical and ceiling (the floor
      is always printed as a literal `0GiB`). */
  datatype Bounds = Bounds(warn: real, crit: real, max: real)

  /** The perf data of a bucket line: used GiB, thresholds when a quota basis
      exists, and the object count. */
  datatype Perf = Perf(used: real, bounds: Option<Bounds>, objects: int)

  /** Thresholds appear exactly when the quota branch of the output applies,
      and then sit at 80% and 90% of the quota with the quota as ceiling. */
  function BucketPerf(r: BucketResult): (p: Perf)
    requires Printable(r) && r.sizeGib.Some?
    ensures p.used == r.sizeGib.value && p.objects == r.objects.value
    ensures p.bounds.None? <==> !Truthy(r.quotaGib) && r.sizeGib.value != 0.0
    ensures p.bounds.Some? ==>
      && r.quotaGib.Some?
      && p.bounds.value.warn == r.quotaGib.value * 0.8
      && p.bounds.value.crit == r.quotaGib.value * 0.9
      && p.bounds.value.max == r.quotaGib.value
    ensures p.bounds.Some? && r.quotaGib.value > 0.0 ==>
      0.0 < p.bounds.value.warn < p.bounds.value.crit < p.bounds.value.max
  {
    var size := r.sizeGib.value;
    if !Truthy(r.quotaGib) && size != 0.0 then
      Perf(size, None, r.objects.value)
    else
      var quota := r.quotaGib.value;
      Perf(size, Some(Bounds(quota * 0.8, quota * 0.9, quota)), r.objects.value)
  }

  /** `used=S GiB[;W GiB;C GiB;0GiB;Q GiB]|objects=N`, numbers rendered by `fmt`. */
  function RenderPerf(p: Perf, fmt: real -> string): string {
    var thresholds :=
      match p.bounds
      case Some(b) => ";" + fmt(b.warn) + "GiB;" + fmt(b.crit) + "GiB;0GiB;" + fmt(b.max) + "GiB"
      case None => "";
    "used=" + fmt(p.used) + "GiB" + thresholds + "|objects=" + IntToString(p.objects)
  }

  /** The human part after the perf data, with `(N Objects)` only for N > 0. */
  function UsedText(r: BucketResult, fmt: real -> string): string
    requires Printable(r) && r.sizeGib.Some?
  {
    var size := r.sizeGib.value;
    var objects := r.objects.value;
    var count := if objects > 0 then " (" + IntToString(objects) + " Objects)" else "";
    if !Truthy(r.quotaGib) && size != 0.0 then
      "Used: " + fmt(size) + " GiB" + count
    else
      "Used: " + fmt(r.percentage.value) + "% - " + fmt(size) + " GiB of " + fmt(r.quotaGib.value) + " GiB" + count
  }

  /** One bucket's line; a bucket without a size prints its code and label only. */
  function BucketLine(name: string, r: BucketResult, fmt: real -> string): (line: string)
    requires Printable(r)
    ensures r.sizeGib.None? ==> line == IntToString(r.status) + " " + BucketLabel(name)
  {
    IntToString(r.status) + " " + BucketText(name, r, fmt)
  }

  /** Everything after a bucket line's code: label, then perf data and usage
      text when there is a size. */
  function BucketText(name: string, r: BucketResult, fmt: real -> string): string
    requires Printable(r)
  {
    if r.sizeGib.None? then BucketLabel(name)
    else BucketLabel(name) + " " + RenderPerf(BucketPerf(r), fmt) + " " + UsedText(r, fmt)
  }

  /** A collector reading a bucket line's first field gets the bucket's status. */
  lemma BucketLineStatus(name: string, r: BucketResult, fmt: real -> string)
    requires Printable(r)
    ensures ParseNat(FirstField(BucketLine(name, r, fmt))) == Some(r.status)
  {
    FirstFieldOf(IntToString(r.status), BucketText(name, r, fmt));
    ParseNatToString(r.status);
  }

  /** A line with a size ends in `Objects)` exactly when the bucket holds objects. */
  lemma BucketLineObjects(name: string, r: BucketResult, fmt: real -> string)
    requires Printable(r) && r.sizeGib.Some?
    ensures EndsWith(BucketLine(name, r, fmt), " Objects)") <==> r.objects.value > 0
  {
    var used := UsedText(r, fmt);
    var front := IntToString(r.status) + " " + BucketLabel(name) + " " + RenderPerf(BucketPerf(r), fmt) + " ";
    assert BucketLine(name, r, fmt) == front + used;
    EndsWithAppend(front, used);
    var size := r.sizeGib.value;
    var main :=
      if !Truthy(r.quotaGib) && size != 0.0 then "Used: " + fmt(size) + " GiB"
      else "Used: " + fmt(r.percentage.value) + "% - " + fmt(size) + " GiB of " + fmt(r.quotaGib.value) + " GiB";
    if r.objects.value > 0 {
      var count := " (" + IntToString(r.objects.value) + " Objects)";
      assert used == main + count;
      EndsWithAppend(main, count);
      EndsWithAppend(" (" + IntToString(r.objects.value), " Objects)");
      EndsWithTrans(front + used, used, count);
      EndsWithTrans(front + used, count, " Objects)");
    } else {
      assert used == main;
      assert used[|used| - 1] == 'B';
    }
  }

  /** The line printed for one discovered bucket. */
  function BucketReport(b: BucketFacts, fmt: real -> string): string {
    BucketLine(b.name, CheckBucket(BucketQuota(b.quotaField), b.usage), fmt)
  }

  // ------------------------------------------------------------------
  // The whole run
  // ------------------------------------------------------------------

  /** Output lines and process exit code of one run. */
  datatype Report = Report(lines: seq<string>, exitCode: Status)

  /** The outcome of `mc admin info`: the parsed info, or the error's text. */
  datatype InfoFetch = Fetched(info: MinioInfo) | FetchFailed(reason: string)

  /** A run: the summary line, then one line per bucket in discovery order; the
      exit code is the summary status, so bucket statuses never reach it. A run
      that cannot read the cluster info prints the error and exits UNKNOWN. */
  function RunMinio(fetched: InfoFetch, buckets: seq<BucketFacts>, fmt: real -> string): (rep: Report)
    ensures fetched.FetchFailed? ==> rep.exitCode == UNKNOWN && |rep.lines| == 1
    ensures fetched.Fetched? ==>
      && rep.exitCode == OverallStatus(fetched.info)
      && rep.exitCode != UNKNOWN
      && |rep.lines| == |buckets| + 1
      && rep.lines[0] == SummaryLine(fetched.info)
      && ParseNat(FirstField(rep.lines[0])) == Some(rep.exitCode)
      && forall k :: 0 <= k < |buckets| ==> rep.lines[k + 1] == BucketReport(buckets[k], fmt)
  {
    match fetched
    case FetchFailed(reason) =>
      Report(["Error retrieving MinIO info: " + reason], UNKNOWN)
    case Fetched(info) =>
      SummaryLineStatus(info);
      var bucketLines := seq(|buckets|, k requires 0 <= k < |buckets| => BucketReport(buckets[k], fmt));
      Report([SummaryLine(info)] + bucketLines, OverallStatus(info))
  }

  /** Two runs over the same cluster exit alike whatever buckets they find. */
  lemma ExitIgnoresBuckets(fetched: InfoFetch, a: seq<BucketFacts>, b: seq<BucketFacts>, fmt: real -> string)
    ensures RunMinio(fetched, a, fmt).exitCode == RunMinio(fetched, b, fmt).exitCode
  {
  }

  // ------------------------------------------------------------------
  // Worked examples
  // ------------------------------------------------------------------

  /** 85 GiB used of a 100 GiB quota, 10 objects: WARNING at 85%. */
  lemma WarningBandExample()
    ensures CheckBucket(Some(100 * 1073741824), Some(Usage(85 * 1073741824, 10)))
         == BucketResult(WARNING, Some(85.0), Some(100.0), Some(85.0), Some(10))
  {
  }

  /** The perf data of that bucket: thresholds at 80 and 90 GiB, floor 0,
      ceiling 100 GiB. */
  lemma WarningBandPerf(fmt: real -> string)
    ensures var r := CheckBucket(Some(100 * 1073741824), Some(Usage(85 * 1073741824, 10)));
      RenderPerf(BucketPerf(r), fmt)
      == "used=" + fmt(85.0) + "GiB" + (";" + fmt(80.0) + "GiB;" + fmt(90.0) + "GiB;0GiB;" + fmt(100.0) + "GiB") + "|objects=10"
  {
    var r := BucketResult(WARNING, Some(85.0), Some(100.0), Some(85.0), Some(10));
    WarningBandExample();
    assert BucketPerf(r) == Perf(85.0, Some(Bounds(80.0, 90.0, 100.0)), 10);
    assert IntToString(10) == "10";
  }

  /** Exactly 80% of the quota is still OK, exactly 90% already CRITICAL. */
  lemma BandEdges(k: int, objects: int)
    requires k > 0
    ensures CheckBucket(Some(5 * k), Some(Usage(4 * k, objects))).status == OK
    ensures CheckBucket(Some(10 * k), Some(Usage(9 * k, objects))).status == CRITICAL
  {
  }

  /** A quota-less bucket holding bytes but no objects: WARNING, perf data
      without thresholds, and no object count in the text. */
  lemma QuotaLessLine(name: string, field: Option<int>, usage: Usage, fmt: real -> string)
    requires field.None? || field.value == 0
    requires usage.size != 0 && usage.objects == 0
    ensures var size := fmt(usage.size as real / GIB);
      BucketReport(BucketFacts(name, field, Some(usage)), fmt)
      == "1" + " " + (BucketLabel(name) + " " + ("used=" + size + "GiB|objects=0") + " " + ("Used: " + size + " GiB"))
  {
    var r := CheckBucket(BucketQuota(field), Some(usage));
    var size := fmt(usage.size as real / GIB);
    assert r == BucketResult(WARNING, Some(usage.size as real / GIB), None, None, Some(0));
    assert IntToString(0) == "0" && IntToString(1) == "1";
    assert RenderPerf(BucketPerf(r), fmt) == "used=" + size + "GiB|objects=0";
    assert UsedText(r, fmt) == "Used: " + size + " GiB";
  }
}
