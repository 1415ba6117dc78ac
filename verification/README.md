# Status classification of three check_mk local checks

A Dafny model of the decision logic inside three monitoring probes:

- **MinIO** (`check_minio.py`): the cluster mode, the walk over servers and
  their drives, the bucket occupation bands against a quota, and the lines and
  exit code the probe prints.
- **Rancher** (`check_rancher_containers.py`): host agent state, service
  health, selection of the configured stack and its monitored services, and the
  report lines.
- **Traefiker** (`traefiker_status.py`): the counter of narratives by state.

Severities are the check_mk codes 0 OK, 1 WARNING, 2 CRITICAL, 3 UNKNOWN
(`Severity.Status`, labels from `STATUS_STRINGS`). Everything the probes fetch
is an input: `mc admin info` becomes `Minio.InfoFetch`, `mc quota info` and
`mc du` become `Minio.BucketFacts`, each host's instance list becomes
`Rancher.Host.instanceCount`, the per-id service request becomes a function
`fetch: string -> Service`, and each Traefiker section's `narrative_services`
becomes a `seq<Narrative>`. Output lines are returned strings and exit codes
returned integers. The `.2f` rendering of GiB figures and percentages is a
parameter `fmt: real -> string`. GiB sizes are exact rationals, `bytes / 1024^3`.

Files: `wrappers.dfy` (Option), `severity.dfy` (codes, labels, maximum),
`text.dfy` (Python `str()` of integers and reading it back, `str.replace(pat, '')`,
fields of a line), `minio.dfy`, `rancher.dfy`, `traefiker.dfy`.

The model follows the code in several places where its behaviour is easy to
misread:

- A bucket with no quota and zero bytes used is UNKNOWN, not WARNING. The code
  tests the size for truthiness, and zero is falsy (`Minio.QuotaLessBucket`).
- The Rancher probe always exits 0. This holds whatever the host and service
  states are, and also when no stack matches (`Rancher.RunRancher`).
- The MinIO exit code ignores bucket statuses (`Minio.ExitIgnoresBuckets`).
- A failed size fetch (`mc du`) leaves the size missing, so the bucket is
  UNKNOWN (`Minio.CheckBucket`). A failed quota fetch is read as "no quota":
  a non-empty bucket is then WARNING and an empty one UNKNOWN
  (`Minio.QuotaLessBucket`). A failed bucket listing gives no bucket lines.

## Model

| member | source | states |
|---|---|---|
| `Severity.Label` | check_minio.py:8 | labels are the four `STATUS_STRINGS` entries, one per code, each code to its own word |
| `Severity.Worst` | check_minio.py:101-114 | a rollup is at least every member, is one of them, and is OK for an empty collection |
| `Severity.WorstAppend` | check_minio.py:106-114 | rolling up a concatenation is the maximum of the two rollups, so folding order does not matter |
| `Text.ParseNatToString` | check_rancher_containers.py:58 | the decimal `str()` of a count reads back as that count |
| `Text.ParseIntToString` | check_minio.py:141 | `str()` of any integer, negative ones included, reads back as the same integer |
| `Text.RemoveAllChar` | check_minio.py:143 | `replace('/', '')` removes every `/` and keeps all other characters in order |
| `Text.RemoveAllAbsent` | check_minio.py:109 | a string without the pattern is left unchanged by the removal |
| `Text.SinglePass` | check_minio.py:109 | removal is one left-to-right pass: an occurrence that forms only once another is cut out is kept, as in Python's `replace` |
| `Text.SinglePassScheme` | check_minio.py:109 | the endpoint `hhttps://ttps://` is listed as `https://` |
| `Minio.CheckClusterMode` | check_minio.py:89-94 | status is OK exactly when the mode is `online`, CRITICAL otherwise; the text is `cluster: ` and the mode |
| `Minio.WalkDrives` | check_minio.py:108-117 | the drive loop appends an entry for each flagged drive only, and raises the status to at least WARNING exactly when a drive is flagged |
| `Minio.CheckServerAndDrives` | check_minio.py:97-119 | CRITICAL exactly when a server is not online; WARNING exactly when all are online and some drive is not `ok` or is healing; OK otherwise; texts list every server and the flagged drives |
| `Minio.DriveTextEmpty` | check_minio.py:108-117 | one server's drive text is empty exactly when none of its drives is flagged |
| `Minio.DrivesTextEmpty` | check_minio.py:108-117 | the drive text is empty exactly when no drive anywhere is flagged |
| `Minio.DriveEntryHealing` | check_minio.py:110-117 | a listed drive ends in `(healing)` exactly when it carries the healing key; otherwise it ends in a blank |
| `Minio.DriveEntryStripsScheme` | check_minio.py:109 | an `https://` drive endpoint is listed by its host part alone |
| `Minio.DrivesNeverCritical` | check_minio.py:105-114 | with every server online, any drive trouble stays at WARNING; only a server makes the part CRITICAL |
| `Minio.RollupIsWorst` | check_minio.py:101-114 | the servers-and-drives status is the maximum of every server's and drive's own severity |
| `Minio.OverallStatus` | check_minio.py:126-130 | the summary status is the maximum of cluster and component status: CRITICAL iff the cluster is not online or a server is down, never UNKNOWN |
| `Minio.SummaryLineStatus` | check_minio.py:133 | the first field of the summary line reads back as the overall status |
| `Minio.BucketQuota` | check_minio.py:38-41 | a missing or zero quota is no quota; any other value is kept |
| `Minio.CheckBucket` | check_minio.py:47-76 | with a positive quota: CRITICAL iff 10·size ≥ 9·quota, WARNING iff 5·size > 4·quota and below that, OK iff 5·size ≤ 4·quota; no quota and non-zero size gives WARNING with size and objects only; no usage, or no quota and size zero, gives UNKNOWN with nothing else; a negative quota gives OK at 0% |
| `Minio.BandCross` | check_minio.py:62-74 | the bands over the GiB percentage coincide with the integer cross-multiplication bands on the byte counts |
| `Minio.BandMonotone` | check_minio.py:66-74 | under a fixed quota a larger size never gets a lower status |
| `Minio.QuotaLessBucket` | check_minio.py:54-59 | with a missing or zero quota field, an empty bucket is UNKNOWN and a non-empty one WARNING |
| `Minio.BucketLabel` | check_minio.py:143 | the label is `Bucket_` and the name without any `/` |
| `Minio.BucketPerf` | check_minio.py:140-147 | thresholds appear exactly in the quota branch, at 0.8 and 0.9 of the quota with the quota as ceiling, and are ordered for a positive quota |
| `Minio.BucketLine` | check_minio.py:152-153 | a bucket without a size prints only its code and label |
| `Minio.BucketLineStatus` | check_minio.py:139-153 | the first field of every bucket line reads back as the bucket's status |
| `Minio.BucketLineObjects` | check_minio.py:142-151 | a line with a size ends in `Objects)` exactly when the bucket holds objects |
| `Minio.RunMinio` | check_minio.py:122-155 | the run prints the summary line first, then one line per bucket in discovery order; the exit code is the summary status; a failed info fetch prints one error line and exits UNKNOWN |
| `Minio.ExitIgnoresBuckets` | check_minio.py:155 | two runs over the same cluster exit alike whatever buckets they find |
| `Minio.WarningBandExample` | check_minio.py:62-76 | 85 GiB of a 100 GiB quota with 10 objects is WARNING at exactly 85% |
| `Minio.WarningBandPerf` | check_minio.py:147 | that bucket's perf data carries thresholds 80 and 90 GiB, a literal `0GiB` floor and a 100 GiB ceiling, then `objects=10` |
| `Minio.BandEdges` | check_minio.py:69-74 | usage of exactly 80% of the quota is OK and exactly 90% is CRITICAL |
| `Minio.QuotaLessLine` | check_minio.py:139-145 | a quota-less bucket holding bytes but no objects prints code 1, its label, perf data `used=…GiB|objects=0` without thresholds, and the used GiB with no object count |
| `Rancher.HostVerdict` | check_rancher_containers.py:43-51 | a host is OK exactly when `active` and CRITICAL otherwise; the initial UNKNOWN never survives; the word matches the code |
| `Rancher.ServiceVerdict` | check_rancher_containers.py:77-85 | `healthy` is OK, `unhealthy` CRITICAL, any other health UNKNOWN, never WARNING; the word matches the code |
| `Rancher.AgentLineStatus` | check_rancher_containers.py:58 | the first field of an agent line reads back as the host status, which is OK or CRITICAL |
| `Rancher.AgentLineCount` | check_rancher_containers.py:53-58 | the last field of an agent line reads back as the host's number of instances |
| `Rancher.ServiceLineStatus` | check_rancher_containers.py:87 | the first field of a service line reads back as the service status |
| `Rancher.ServiceLineScale` | check_rancher_containers.py:87 | the last field of a service line reads back as the service's current scale |
| `Rancher.FindStack` | check_rancher_containers.py:65-69 | the chosen stack carries the configured name and no earlier one does; none is chosen exactly when no stack carries it |
| `Rancher.Monitored` | check_rancher_containers.py:76 | kept services are monitored members of the input, and every monitored service of the input is kept |
| `Rancher.MonitoredAppend` | check_rancher_containers.py:71-76 | the filter of a concatenation is the filter of each part in turn; with `Monitored`'s contract on single services, the kept services are the monitored ones in input order, repeats included |
| `Rancher.ServiceLinesAreMonitored` | check_rancher_containers.py:71-87 | there is one service line per monitored service, and the k-th line belongs to the k-th monitored service |
| `Rancher.ServiceLinesAppend` | check_rancher_containers.py:71-76 | the lines for a concatenation of services are the lines of each part in turn, so stack order is kept |
| `Rancher.RunRancher` | check_rancher_containers.py:41-87 | an agent line for every host, in order; service lines only when a stack matches, for the first match; exit code 0 in every case |
| `Traefiker.NewCounter` | traefiker_status.py:26-29 | the counter starts with exactly the keys `total`, `active`, `queued`, all at 0 |
| `Traefiker.CountOne` | traefiker_status.py:36-42 | `total` rises by one, or by two for state `total`; `active` and `queued` rise only for their own state; keys unchanged |
| `Traefiker.Tally` | traefiker_status.py:26-42 | keys are exactly `total`, `active`, `queued`; `total` is the number of narratives plus those in state `total`; `active` and `queued` count their states |
| `Traefiker.ProcessSection` | traefiker_status.py:20-44 | the probe's loop yields exactly that counter |
| `Traefiker.StatesWithinTotal` | traefiker_status.py:36-39 | `active + queued` never exceeds `total` |
| `Traefiker.RunTraefiker` | traefiker_status.py:44-55 | one printed counter per section, in order, each the dict repr (`CountsRepr`, keys in insertion order) of that section's tally |

## Left out

- The `mc` subprocess calls and JSON decoding are left out (check_minio.py:11-44, 79-86). So are the error messages that the fetchers print: they contain exception text. Only the fetchers' fallback results are modelled: a missing size or quota is `None`, and a failed bucket listing is the empty list.
- HTTP sessions, authentication, `argparse` and `configparser` are left out. The Rancher and Traefiker probes get their resolved values as inputs.
- The Rancher probe's first printed line, `print(monitoredServices)`, is left out. It is the Python `repr` of the configured list, a debugging aid whose escaping rules are Python's.
- Floating point is left out. Sizes, quotas and percentages are exact rationals. A product such as `quota * 0.8` in binary floating point can differ from the exact value in the last place.
- The `.2f` rendering of numbers is left out. It is the parameter `fmt`, and nothing is assumed about its output.
- Exceptions raised on malformed fetched records are left out, such as a missing `state` or `endpoint` key in the MinIO info or the Rancher data. The records are typed, so those keys are always present. The one missing key the code catches (a narrative without `state`) is modelled.
- Minio.RunMinio: the text of the info-fetch error is taken as given. It is the exception's rendering.
- Rancher.RunRancher: the bare `except` also turns any error while scanning the stack list into exit 0. Only the no-match case is modelled, because typed stacks always have a name.
