# OpenRTM data-port pipeline and coil utilities, modelled in Dafny

This project models the push side of an OpenRTM-aist data port and the
bookkeeping code around it. The model covers:

- the periodic publisher that drains a connector's buffer into an InPort
  consumer under four push policies (`all`, `fifo`, `skip`, `new`);
- the `DataPortStatus` enumeration, and the status tables of the two
  inbound providers (CORBA CDR `put`, data-service `push`) and of the
  pull consumer (`get`);
- the OutPort connector's endianness, pull-direct mode and InPort binding;
- the typed InPort: direct writes, `read(name)`, the `isNew`/`isEmpty`
  overloads and the status list;
- the coil `Properties` tree (dotted keys, set/get/default, key/value line
  splitting, `load`, node creation and removal, property names);
- the documented string contracts of `stringutil.h`;
- the file-name glob of `filelist`;
- the SDO organization (properties, members, dependency), and the
  period/kind/participant part of the execution-context profile.

Other parts of the system appear as oracles:

- the consumer's reply to its n-th `put`;
- the buffer's answer to a write;
- a remote `get` reply;
- a connector's direct data;
- ORB narrowing and IOR resolution;
- a directory listing.

Listener notifications are an appended log of `Notice` values, so every
contract can state exactly which events fired and in what order. The
collaborators whose code is not part of this model live in `port_types.dfy`.
They are the ring buffer, the listener registry, the consumer and the
receiving connector. Each is given the smallest behaviour the core relies
on: the buffer is a sequence of stored samples with a read index, and
`readable()` is the length of the unread suffix.

Files, one module per source file:

| file | module | models |
|---|---|---|
| common.dfy | Common | `Option`, `Result` |
| port_types.dfy | PortTypes | buffer/port status codes, `ByteData`, listener kinds, collaborator classes |
| data_port_status.dfy | DataPortStatusModel | `DataPortStatus.h` |
| publisher_periodic.dfy | PublisherPeriodic | `PublisherPeriodic.cpp` |
| inport_cdr_provider.dfy | InPortCorbaCdrProvider | `InPortCorbaCdrProvider.cpp` |
| inport_ds_provider.dfy | InPortDSProvider | `InPortDSProvider.cpp` |
| outport_cdr_consumer.dfy | OutPortCorbaCdrConsumer | `OutPortCorbaCdrConsumer.cpp` |
| outport_connector.dfy | OutPortConnector | `OutPortConnector.cpp` |
| inport.dfy | InPortModel | `InPort.h` |
| properties.dfy | Properties | `Properties.cpp` |
| stringutil.dfy | StringUtil | `stringutil.h` (documented contracts) |
| file_glob.dfy | FileGlob | the glob loop of `filelist` in `File.h` |
| sdo_organization.dfy | SdoOrganization | `SdoOrganization.cpp` |
| ec_profile.dfy | ExecutionContextProfileModel | `ExecutionContextProfile.cpp` |

How the publisher is proved: each push policy is a pure function of the
stored samples, the read index, the consumer's replies and the put count.
Those functions are `PushAllOutcome`, `PushFifoOutcome`, `PushNewOutcome`
and `PushSkipOutcome`. Each gives the samples put, the new read index, the
status and the notifications. The class methods with the source's loops are
proved to produce exactly that outcome. The lemmas then state the
policies' promises about the outcome functions. For `pushSkip`, the loop's
outcome is also proved equal to an independent description by selection
(`SkipByPicks`): the samples at offsets (k-l)+i(k+1) of the readable region,
delivered as one run.

## Model

| member | source | states |
|---|---|---|
| DataPortStatusModel.Ordinal | src/lib/rtm/DataPortStatus.h:113-129 | a position below the 14 enumerators, 0 exactly for PORT_OK |
| DataPortStatusModel.FromOrdinal | src/lib/rtm/DataPortStatus.h:113-129 | for each value 0..13, the enumerator at that position |
| DataPortStatusModel.OrdinalRoundTrip | src/lib/rtm/DataPortStatus.h:113-129 | FromOrdinal(Ordinal(s)) == s, so the 14 ordinals are distinct |
| DataPortStatusModel.ToString | src/lib/rtm/DataPortStatus.h:154-173 | the table has one entry per status, and each status prints as the non-empty entry at its position |
| DataPortStatusModel.ToStringNames | src/lib/rtm/DataPortStatus.h:156-171 | each of the 14 statuses prints as its own enumerator name |
| DataPortStatusModel.FromString | src/lib/rtm/DataPortStatus.h:156-171 | a status exactly for the names in the table |
| DataPortStatusModel.NamesDistinct | src/lib/rtm/DataPortStatus.h:156-171 | the 14 table entries are pairwise distinct |
| DataPortStatusModel.ToStringRoundTrip | src/lib/rtm/DataPortStatus.h:154-173 | FromString(ToString(s)) == Some(s) |
| DataPortStatusModel.ToStringInjective | src/lib/rtm/DataPortStatus.h:154-173 | toString is injective |
| PublisherPeriodic.ConvertReturn | src/lib/rtm/PublisherPeriodic.cpp:512-550 | buffer status to port status, as an if-and-only-if per port status; FULL fires exactly ON_BUFFER_FULL, TIMEOUT exactly ON_BUFFER_WRITE_TIMEOUT, every other status nothing |
| PublisherPeriodic.InvokeListener | src/lib/rtm/PublisherPeriodic.cpp:560-602 | a failed put fires exactly one notification and never yields PORT_OK |
| PublisherPeriodic.InvokeListenerTable | src/lib/rtm/PublisherPeriodic.cpp:560-602 | ON_RECEIVER_FULL iff SEND_FULL, ON_RECEIVER_TIMEOUT iff SEND_TIMEOUT, ON_RECEIVER_ERROR otherwise; PORT_ERROR, SEND_FULL, SEND_TIMEOUT, CONNECTION_LOST, UNKNOWN_ERROR pass through, everything else becomes PORT_ERROR |
| PublisherPeriodic.OkRunSpec | src/lib/rtm/PublisherPeriodic.cpp:276-291 | the accepted run is every put before the first refused one, and the put after it is refused |
| PublisherPeriodic.OkRunUnique | src/lib/rtm/PublisherPeriodic.cpp:276-291 | any length with those two properties is the accepted run |
| PublisherPeriodic.Deliver | src/lib/rtm/PublisherPeriodic.cpp:276-291 | at most the whole run is accepted |
| PublisherPeriodic.DeliverSpec | src/lib/rtm/PublisherPeriodic.cpp:276-291 | putting a run one by one: PORT_OK iff every sample accepted; otherwise the samples up to and including the refused one are put, with read/send/received events for the accepted ones and `invokeListener`'s verdict for the refused one |
| PublisherPeriodic.DeliverRefused | src/lib/rtm/PublisherPeriodic.cpp:283-287 | a refused delivery ends with the refused sample as its last put |
| PublisherPeriodic.DeliverAll | src/lib/rtm/PublisherPeriodic.cpp:276-293 | a run whose every put is accepted is delivered in full with PORT_OK |
| PublisherPeriodic.SkipOffsetClosed | src/lib/rtm/PublisherPeriodic.cpp:334-352 | the i-th sample `pushSkip` sends lies (k-l)+i(k+1) past the starting read index |
| PublisherPeriodic.GroupsFit | src/lib/rtm/PublisherPeriodic.cpp:330-336 | with r readable and carry l <= k, all floor((r+l)/(k+1)) passes end inside the readable region |
| PublisherPeriodic.SkipPassInRange | src/lib/rtm/PublisherPeriodic.cpp:338-341 | every `get` of a fitting tick is inside the readable region |
| PublisherPeriodic.SkipPickAt | src/lib/rtm/PublisherPeriodic.cpp:338-341 | the i-th pick is the readable sample at the i-th skip offset |
| PublisherPeriodic.SkipPicks | src/lib/rtm/PublisherPeriodic.cpp:338-341 | as many picks as passes |
| PublisherPeriodic.SkipRun | src/lib/rtm/PublisherPeriodic.cpp:337-355 | m passes add at most m puts to those already made, and a run that does not start at BUFFER_EMPTY never ends there |
| PublisherPeriodic.SkipOutcomeByPicks | src/lib/rtm/PublisherPeriodic.cpp:325-361 | the loop's outcome equals delivering the selected samples as one run (the selection description) |
| PublisherPeriodic.SkipByPicks | src/lib/rtm/PublisherPeriodic.cpp:325-361 | the skip tick described by the samples it selects; the new carry never exceeds the skip count, and a successful tick ends with the read index at the end and the carry (r+l) mod (k+1) |
| PublisherPeriodic.PushAllOutcome | src/lib/rtm/PublisherPeriodic.cpp:271-294 | BUFFER_EMPTY iff the buffer was empty, and then nothing is put; the read index only moves forward, within the stored samples |
| PublisherPeriodic.PushFifoOutcome | src/lib/rtm/PublisherPeriodic.cpp:299-320 | BUFFER_EMPTY iff the buffer was empty, and then nothing is put; otherwise the read index moves by at most one |
| PublisherPeriodic.PushNewOutcome | src/lib/rtm/PublisherPeriodic.cpp:366-393 | BUFFER_EMPTY iff the buffer was empty, and then nothing is put; otherwise the read index ends on or just past the newest sample |
| PublisherPeriodic.PushSkipOutcome | src/lib/rtm/PublisherPeriodic.cpp:325-361 | BUFFER_EMPTY iff the buffer was empty, and then nothing is put and the carry is kept; the new carry never exceeds the skip count |
| PublisherPeriodic.PushAllProperties | src/lib/rtm/PublisherPeriodic.cpp:271-294 | puts are a prefix of the readable samples in FIFO order; the read index passes exactly the accepted run; PORT_OK iff nothing is left readable; a refusal is the last put and leaves that sample unread |
| PublisherPeriodic.PushAllDrained | src/lib/rtm/PublisherPeriodic.cpp:276-293 | when every put is accepted, all readable samples are put and the buffer is drained |
| PublisherPeriodic.PushAllStopped | src/lib/rtm/PublisherPeriodic.cpp:283-287 | a refusal at the n-th readable sample puts n+1 samples and leaves the read index n past the start |
| PublisherPeriodic.PushAllShape | src/lib/rtm/PublisherPeriodic.cpp:271-294 | puts form a prefix of the readable region and the read index moves by the accepted run |
| PublisherPeriodic.PushAllAccepts | src/lib/rtm/PublisherPeriodic.cpp:282-291 | the read index advances only past samples whose put returned PORT_OK |
| PublisherPeriodic.PushAllRefusal | src/lib/rtm/PublisherPeriodic.cpp:283-287 | a refused put is the last one and its sample stays readable |
| PublisherPeriodic.PushFifoProperties | src/lib/rtm/PublisherPeriodic.cpp:299-320 | exactly one put, of the oldest readable sample; PORT_OK iff accepted, and then exactly that sample is consumed, otherwise nothing |
| PublisherPeriodic.PushNewProperties | src/lib/rtm/PublisherPeriodic.cpp:366-393 | exactly one put, of the newest stored sample; on success nothing is readable, on failure the newest sample stays unread |
| PublisherPeriodic.HeadTick | src/lib/rtm/PublisherPeriodic.cpp:304-317 | one `pushFifo` tick in explicit form: the put, the events and the read index for acceptance and refusal |
| PublisherPeriodic.NewIsHeadOfNewest | src/lib/rtm/PublisherPeriodic.cpp:375-390 | `pushNew` is `pushFifo` after moving the read index to the newest sample |
| PublisherPeriodic.SkipPickInSamples | src/lib/rtm/PublisherPeriodic.cpp:338-341 | the i-th pick is the stored sample SkipOffset(i) past the read index, which is in range |
| PublisherPeriodic.PicksTickAccepted | src/lib/rtm/PublisherPeriodic.cpp:336-357 | when every pick is accepted, exactly the picks are put, in order, and the read index reaches the end of the readable region |
| PublisherPeriodic.PicksTickRefused | src/lib/rtm/PublisherPeriodic.cpp:343-349 | a refused pick is the last put, lies inside the readable region, and the read index is left at or before it |
| PublisherPeriodic.PushSkipSuccess | src/lib/rtm/PublisherPeriodic.cpp:325-361 | floor((r+l)/(k+1)) puts, the i-th at offset (k-l)+i(k+1), all readable; the read index advances exactly r; the new carry is (r+l) mod (k+1) <= k |
| PublisherPeriodic.PushSkipFailure | src/lib/rtm/PublisherPeriodic.cpp:343-349 | a refused put ends the tick: the carry is unchanged, the refused sample lies inside the readable region at a skip offset, and the read index is left at or before it |
| PublisherPeriodic.SkipCounts | src/lib/rtm/PublisherPeriodic.cpp:330-358 | two consecutive ticks send as many samples, and leave the same carry, as one tick over all their samples |
| PublisherPeriodic.SkipCadence | src/lib/rtm/PublisherPeriodic.cpp:330-358 | the carry keeps the cadence: the picks of two consecutive ticks are the picks of one tick over the concatenated samples |
| PublisherPeriodic.SkipExample | src/lib/rtm/PublisherPeriodic.cpp:330-352 | skip count 2, carry 0, nine readable samples: offsets 2, 5 and 8 are sent |
| PublisherPeriodic.PolicyOf | src/lib/rtm/PublisherPeriodic.cpp:409-417 | "all", "fifo" and "skip" select their policy; any other value selects NEW (each as an if-and-only-if) |
| PublisherPeriodic.SkipCountOf | src/lib/rtm/PublisherPeriodic.cpp:419-432 | an unparsable or negative skip_count keeps 0; otherwise the parsed value |
| PublisherPeriodic.PolicyNormalized | src/lib/rtm/PublisherPeriodic.cpp:405-407 | for every value, blanks added at either end and upper-case letters select the same policy |
| PublisherPeriodic.ConfiguredPolicy | src/lib/rtm/PublisherPeriodic.cpp:404-417 | NEW when push_policy is absent or empty; otherwise the policy of its normalised value |
| PublisherPeriodic.ConfiguredSkipCount | src/lib/rtm/PublisherPeriodic.cpp:419-432 | the skip_count text ("0" when absent) parsed; 0 when it does not parse or is negative |
| PublisherPeriodic.Publisher.constructor | src/lib/rtm/PublisherPeriodic.cpp:40-42 | no consumer, buffer or listeners; retcode PORT_OK; policy NEW; skip count and carry 0; no task |
| PublisherPeriodic.Publisher.SetPushPolicy | src/lib/rtm/PublisherPeriodic.cpp:402-433 | the policy and skip count become the configured ones |
| PublisherPeriodic.Publisher.Init | src/lib/rtm/PublisherPeriodic.cpp:78-89 | policy configured, then the periodic task made; INVALID_ARGS unless a task with a valid rate was made |
| PublisherPeriodic.Publisher.CreateTask | src/lib/rtm/PublisherPeriodic.cpp:442-502 | success iff a task was made and a rate found; a new task is left suspended |
| PublisherPeriodic.Publisher.SetConsumer | src/lib/rtm/PublisherPeriodic.cpp:99-110 | null is INVALID_ARGS and keeps the old consumer; otherwise stored, PORT_OK |
| PublisherPeriodic.Publisher.SetBuffer | src/lib/rtm/PublisherPeriodic.cpp:119-130 | null is INVALID_ARGS and keeps the old buffer; otherwise stored, PORT_OK |
| PublisherPeriodic.Publisher.SetListener | src/lib/rtm/PublisherPeriodic.cpp:140-153 | null is INVALID_ARGS and changes nothing; otherwise profile and listeners stored, PORT_OK |
| PublisherPeriodic.Publisher.Write | src/lib/rtm/PublisherPeriodic.cpp:163-192 | a missing collaborator is PRECONDITION_NOT_MET and a lost connection CONNECTION_LOST, both with buffer and log unchanged; after SEND_FULL the sample goes to the buffer (stored when the buffer accepts it), BUFFER_FULL is returned, no event fired, task not resumed; otherwise ON_BUFFER_WRITE, the write, ConvertReturn's events and status, task resumed |
| PublisherPeriodic.Publisher.Activate | src/lib/rtm/PublisherPeriodic.cpp:213-220 | without task or buffer PRECONDITION_NOT_MET and no change; otherwise active and resumed |
| PublisherPeriodic.Publisher.Deactivate | src/lib/rtm/PublisherPeriodic.cpp:229-235 | without task PRECONDITION_NOT_MET; otherwise inactive and suspended |
| PublisherPeriodic.Publisher.Send | src/lib/rtm/PublisherPeriodic.cpp:279-287 | one put: ON_BUFFER_READ, ON_SEND, then ON_RECEIVED on PORT_OK or `invokeListener`'s event and status |
| PublisherPeriodic.Publisher.PushHead | src/lib/rtm/PublisherPeriodic.cpp:304-319 | the sample at the read index is put, and consumed exactly when accepted |
| PublisherPeriodic.Publisher.DrainReadable | src/lib/rtm/PublisherPeriodic.cpp:276-293 | the loop's result in terms of the accepted run: everything put and notified on success, the prefix plus the refused sample on failure |
| PublisherPeriodic.Publisher.PushAll | src/lib/rtm/PublisherPeriodic.cpp:271-294 | status, read index, puts and notifications are those of PushAllOutcome |
| PublisherPeriodic.Publisher.PushFifo | src/lib/rtm/PublisherPeriodic.cpp:299-320 | status, read index, puts and notifications are those of PushFifoOutcome |
| PublisherPeriodic.Publisher.PushNew | src/lib/rtm/PublisherPeriodic.cpp:366-393 | readback set when the buffer is not empty; the rest as PushNewOutcome |
| PublisherPeriodic.Publisher.SkipSend | src/lib/rtm/PublisherPeriodic.cpp:338-353 | one pass: skip, put the sample reached, rewind the skip on refusal |
| PublisherPeriodic.Publisher.SkipLoop | src/lib/rtm/PublisherPeriodic.cpp:337-355 | the loop ends as SkipRun describes it, and `readable` is what is left after the last send |
| PublisherPeriodic.Publisher.PushSkip | src/lib/rtm/PublisherPeriodic.cpp:325-361 | status, read index, puts, notifications and carry are those of PushSkipOutcome, and the carry stays <= skip count |
| PublisherPeriodic.Publisher.SkipTick | src/lib/rtm/PublisherPeriodic.cpp:330-360 | the loop, the final skip and the new carry leave status, read index, puts, notifications and carry as PushSkipOutcome says for a non-empty buffer; the carry stays <= skip count |
| PublisherPeriodic.Publisher.Svc | src/lib/rtm/PublisherPeriodic.cpp:244-266 | dispatch on the policy (unknown means `pushNew`) and store the tick's status in retcode |
| PublisherPeriodic.WriteAfterLostConnection | src/lib/rtm/PublisherPeriodic.cpp:168-176 | once retcode is CONNECTION_LOST, write returns it and leaves the buffer alone |
| InPortCorbaCdrProvider.ConvertReturn | src/lib/rtm/InPortCorbaCdrProvider.cpp:191-222 | the buffer-to-port status table as if-and-only-ifs, with the exact event list per case; no event exactly for EMPTY and NOT_SUPPORTED |
| InPortCorbaCdrProvider.ConvertReturnNoticesByStatus | src/lib/rtm/InPortCorbaCdrProvider.cpp:191-222 | two buffer statuses with the same port status fire the same event kinds |
| InPortCorbaCdrProvider.ConvertReturnReceiverSide | src/lib/rtm/InPortCorbaCdrProvider.cpp:195-221 | a receiver-side event fires iff the status is PORT_ERROR, BUFFER_FULL or BUFFER_TIMEOUT, and it is the last event |
| InPortCorbaCdrProvider.Provider.constructor | src/lib/rtm/InPortCorbaCdrProvider.cpp:31-52 | a provider with no buffer, listeners or connector |
| InPortCorbaCdrProvider.Provider.SetBuffer | src/lib/rtm/InPortCorbaCdrProvider.cpp:108-112 | only the buffer field changes |
| InPortCorbaCdrProvider.Provider.SetListener | src/lib/rtm/InPortCorbaCdrProvider.cpp:120-125 | only the profile and listener fields change |
| InPortCorbaCdrProvider.Provider.SetConnector | src/lib/rtm/InPortCorbaCdrProvider.cpp:134-137 | only the connector field changes |
| InPortCorbaCdrProvider.Provider.Put | src/lib/rtm/InPortCorbaCdrProvider.cpp:147-182 | with no connector ON_RECEIVER_ERROR and PORT_ERROR, with no write; otherwise the data takes the connector's endianness, ON_RECEIVED fires before the write, and the write's status goes through ConvertReturn |
| InPortDSProvider.ConvertReturn | src/lib/rtm/InPortDSProvider.cpp:189-225 | PORT_OK iff OK; no event iff EMPTY or NOT_SUPPORTED; every event carries the data |
| InPortDSProvider.SameTableAsCorbaCdr | src/lib/rtm/InPortDSProvider.cpp:189-225 | the table equals the CORBA CDR provider's, case for case |
| InPortDSProvider.Provider.constructor | src/lib/rtm/InPortDSProvider.cpp:29-50 | a provider with no buffer, listeners or connector |
| InPortDSProvider.Provider.SetBuffer | src/lib/rtm/InPortDSProvider.cpp:106-110 | only the buffer field changes |
| InPortDSProvider.Provider.SetListener | src/lib/rtm/InPortDSProvider.cpp:118-123 | only the profile and listener fields change |
| InPortDSProvider.Provider.SetConnector | src/lib/rtm/InPortDSProvider.cpp:132-136 | only the connector field changes |
| InPortDSProvider.Provider.Push | src/lib/rtm/InPortDSProvider.cpp:142-180 | with no connector ON_RECEIVER_ERROR and PORT_ERROR, with no write; otherwise endianness from the connector, ON_RECEIVED before the write, the write's status through ConvertReturn |
| OutPortCorbaCdrConsumer.ConvertReturn | src/lib/rtm/OutPortCorbaCdrConsumer.cpp:230-270 | the remote-status table as if-and-only-ifs; ON_SENDER_ERROR/EMPTY/TIMEOUT per case; no event iff PORT_OK or BUFFER_FULL |
| OutPortCorbaCdrConsumer.ConvertReturnFaithful | src/lib/rtm/OutPortCorbaCdrConsumer.cpp:230-270 | the table is injective, never yields CONNECTION_LOST, and fires at most one event |
| OutPortCorbaCdrConsumer.FindIndex | src/lib/rtm/OutPortCorbaCdrConsumer.cpp:155-161 | the position of the first property with that name, None when there is none |
| OutPortCorbaCdrConsumer.Consumer.constructor | src/lib/rtm/OutPortCorbaCdrConsumer.cpp:33-36 | a consumer with no buffer, listeners or object reference |
| OutPortCorbaCdrConsumer.Consumer.SetBuffer | src/lib/rtm/OutPortCorbaCdrConsumer.cpp:66-70 | only the buffer field changes |
| OutPortCorbaCdrConsumer.Consumer.SetListener | src/lib/rtm/OutPortCorbaCdrConsumer.cpp:79-85 | only the profile and listener fields change |
| OutPortCorbaCdrConsumer.Consumer.Get | src/lib/rtm/OutPortCorbaCdrConsumer.cpp:94-141 | a throwing call is CONNECTION_LOST with nothing changed; a non-OK reply goes through ConvertReturn with the buffer untouched; PORT_OK stores the payload, fires ON_RECEIVED, ON_BUFFER_WRITE, then ON_BUFFER_FULL and ON_RECEIVER_FULL only when the buffer was full |
| OutPortCorbaCdrConsumer.Consumer.SubscribeInterface | src/lib/rtm/OutPortCorbaCdrConsumer.cpp:150-185 | succeeds iff the IOR property is present, is a string and resolves; only then is the object reference set |
| OutPortCorbaCdrConsumer.SubscribeRejects | src/lib/rtm/OutPortCorbaCdrConsumer.cpp:155-161 | an absent IOR key, or a value that is not a string, is refused |
| OutPortConnector.Connector.constructor | src/lib/rtm/OutPortConnector.cpp:32-37 | little-endian, not in pull-direct mode, no direct InPort, marshaling type "cdr" |
| OutPortConnector.Connector.Id | src/lib/rtm/OutPortConnector.cpp:82-86 | the profile's id |
| OutPortConnector.Connector.Name | src/lib/rtm/OutPortConnector.cpp:101-105 | the profile's name |
| OutPortConnector.Connector.SetEndian | src/lib/rtm/OutPortConnector.cpp:120-124 | the endianness becomes b, nothing else changes |
| OutPortConnector.Connector.IsLittleEndian | src/lib/rtm/OutPortConnector.cpp:133-136 | answers the stored endianness |
| OutPortConnector.Connector.SetPullDirectMode | src/lib/rtm/OutPortConnector.cpp:149-152 | pull-direct mode is on afterwards |
| OutPortConnector.Connector.PullDirectMode | src/lib/rtm/OutPortConnector.cpp:166-169 | answers the stored mode |
| OutPortConnector.Connector.SetInPort | src/lib/rtm/OutPortConnector.cpp:171-180 | true iff non-null; null changes nothing; otherwise the InPort and its listener registry are bound |
| OutPortConnector.Connector.Read | src/lib/rtm/OutPortConnector.cpp:182-185 | OK, with the argument left alone |
| InPortModel.NamesWhere | src/lib/rtm/InPort.h:236-269 | the listed names are at most the connectors, in connector order |
| InPortModel.NamesWhereMembers | src/lib/rtm/InPort.h:236-269 | a name is listed iff some connector of that name has (or lacks) data |
| InPortModel.NamesWherePartition | src/lib/rtm/InPort.h:236-269 | the `isNew(names)` and `isEmpty(names)` lists together count every connector once |
| InPortModel.LastNamed | src/lib/rtm/InPort.h:551-561 | the last connector with that name, None iff no connector has it |
| InPortModel.Selected | src/lib/rtm/InPort.h:545-564 | an empty name picks connector 0 when there is one; another name picks the last one with that name |
| InPortModel.InPort.constructor | src/lib/rtm/InPort.h:115-138 | the bound value, no direct data, no connectors, status list [PORT_OK] |
| InPortModel.InPort.SetOnReadConvert | src/lib/rtm/InPort.h:783-786 | the converter is stored |
| InPortModel.InPort.Write | src/lib/rtm/InPort.h:423-428 | the value is stored and the direct flag raised |
| InPortModel.InPort.IsNew | src/lib/rtm/InPort.h:270-304 | true with direct data; otherwise iff there is a connector and the first has data |
| InPortModel.InPort.IsEmpty | src/lib/rtm/InPort.h:394-421 | false with direct data; otherwise iff there is no connector or the first has none |
| InPortModel.InPort.IsNewNamed | src/lib/rtm/InPort.h:206-235 | true iff some connector of that name has readable data |
| InPortModel.InPort.IsEmptyNamed | src/lib/rtm/InPort.h:329-358 | true iff some connector of that name has nothing readable |
| InPortModel.InPort.IsNewNames | src/lib/rtm/InPort.h:236-269 | the list is rebuilt: the connectors holding data, in order; true iff it is non-empty |
| InPortModel.InPort.IsEmptyNames | src/lib/rtm/InPort.h:359-393 | the list is rebuilt: the connectors holding nothing, in order; true iff it is non-empty |
| InPortModel.InPort.CollectNames | src/lib/rtm/InPort.h:256-266 | the shared loop computes NamesWhere |
| InPortModel.InPort.FindLastNamed | src/lib/rtm/InPort.h:551-561 | the selection loop computes LastNamed |
| InPortModel.InPort.Read | src/lib/rtm/InPort.h:504-606 | with direct data true, converting and keeping the flag when a converter is set, else lowering it; otherwise false without a selected connector; the direct value when available; else the buffered status becomes the status entry and true iff PORT_OK, storing the (converted) value |
| InPortModel.InPort.GetStatus | src/lib/rtm/InPort.h:695-698 | the index is ignored; the one entry is returned |
| InPortModel.InPort.GetStatusList | src/lib/rtm/InPort.h:729-732 | the list, always of length 1 |
| Properties.DelimsExact | src/lib/coil/common/coil/Properties.cpp:645-665 | the delimiter positions are exactly the unescaped delimiters |
| Properties.KeySplit | src/lib/coil/common/coil/Properties.cpp:645-665 | no pieces exactly for the empty string |
| Properties.Split | src/lib/coil/common/coil/Properties.cpp:645-665 | false iff the string is empty; the pieces are appended to the given list |
| Properties.KeySplitCount | src/lib/coil/common/coil/Properties.cpp:645-665 | one piece per unescaped delimiter, plus one |
| Properties.KeySplitRoundTrip | src/lib/coil/common/coil/Properties.cpp:645-665 | joining the pieces with the delimiter gives back the string |
| Properties.PathOfPlainName | src/lib/coil/common/coil/Properties.cpp:645-665 | a key without dots is a one-element path |
| Properties.HasKey | src/lib/coil/common/coil/Properties.cpp:547-557 | found iff some child has the name, and then it is the first such child |
| Properties.GetNodeAt | src/lib/coil/common/coil/Properties.cpp:675-694 | the corrected `_getNode`: the empty path names the node itself; a found node carries the last key |
| Properties.GetNodeAsWritten | src/lib/coil/common/coil/Properties.cpp:675-694 | `_getNode` as written, reading `keys[index]` for any index below the path length; a found node carries the last key |
| Properties.GetNodeAsWrittenAgrees | src/lib/coil/common/coil/Properties.cpp:675-694 | on every non-empty path the as-written lookup and the corrected one agree |
| Properties.Walk | src/lib/coil/common/coil/Properties.cpp:257-268 | a walk keeps the root's name, and its own value when the path is not empty |
| Properties.WalkReaches | src/lib/coil/common/coil/Properties.cpp:257-268 | after the walk the path leads to its target node, updated |
| Properties.WalkTwice | src/lib/coil/common/coil/Properties.cpp:257-268 | walking the same path twice builds no second copy of it |
| Properties.DefaultWalkKeepsValues | src/lib/coil/common/coil/Properties.cpp:282-302 | a default walk never changes the value or set flag of an existing node |
| Properties.ValueWalkKeepsOthers | src/lib/coil/common/coil/Properties.cpp:251-273 | a value walk changes what a lookup reads (value and default) only at the end of its own path |
| Properties.SetProperty | src/lib/coil/common/coil/Properties.cpp:251-273 | returns the previous value of the node the key names |
| Properties.SetDefault | src/lib/coil/common/coil/Properties.cpp:282-302 | the named node, found or created, is reached with its default replaced and its other fields as before |
| Properties.GetProperty | src/lib/coil/common/coil/Properties.cpp:171-181 | the value if set, else the default, and "" for an absent key |
| Properties.GetPropertyOr | src/lib/coil/common/coil/Properties.cpp:190-196 | `def` exactly when the one-argument lookup is "" |
| Properties.GetDefault | src/lib/coil/common/coil/Properties.cpp:232-242 | the node's default value, "" for an absent key |
| Properties.EmptyKeyLookupAsWritten | src/lib/coil/common/coil/Properties.cpp:171-181 | the empty key has no pieces, and setting it stores the value in the root |
| Properties.GetPropertyAsWrittenAgrees | src/lib/coil/common/coil/Properties.cpp:171-181 | for non-empty keys the corrected lookup is the written one |
| Properties.GetPropertyAsWritten | src/lib/coil/common/coil/Properties.cpp:171-181 | `getProperty` over the as-written lookup, defined only for non-empty keys; a non-empty answer means the key names a node |
| Properties.SetThenGet | src/lib/coil/common/coil/Properties.cpp:251-273 | getProperty(k) is v after setProperty(k, v), for every key |
| Properties.SetTwice | src/lib/coil/common/coil/Properties.cpp:251-273 | setting a key twice equals setting it once with the second value |
| Properties.PathInjective | src/lib/coil/common/coil/Properties.cpp:645-665 | distinct keys split into distinct paths |
| Properties.SetKeepsOtherKeys | src/lib/coil/common/coil/Properties.cpp:251-273 | setting one key leaves getProperty and getDefault of every other key unchanged |
| Properties.SetDefaultThenGetDefault | src/lib/coil/common/coil/Properties.cpp:282-302 | a default reads back through getDefault |
| Properties.SetDefaultThenGet | src/lib/coil/common/coil/Properties.cpp:282-302 | on a key with no set value, getProperty returns the new default |
| Properties.SetDefaultKeepsSetValues | src/lib/coil/common/coil/Properties.cpp:282-302 | setDefault never changes a value that was set |
| Properties.FindNode | src/lib/coil/common/coil/Properties.cpp:461-470 | nothing for the empty key, otherwise the node the path names |
| Properties.CreateNode | src/lib/coil/common/coil/Properties.cpp:501-514 | false iff the key is empty or present, and then the tree is unchanged |
| Properties.CreateNodeThenFind | src/lib/coil/common/coil/Properties.cpp:501-514 | after a successful createNode the key is found, and getProperty of it is "" |
| Properties.GetNode | src/lib/coil/common/coil/Properties.cpp:479-492 | the root for the empty key, the existing node, or a node created at the path |
| Properties.RemoveNode | src/lib/coil/common/coil/Properties.cpp:523-538 | none iff no child has the name, then nothing changes; otherwise the first such child is detached and returned, the others kept in order |
| Properties.Size | src/lib/coil/common/coil/Properties.cpp:449-452 | the number of property names |
| Properties.Names | src/lib/coil/common/coil/Properties.cpp:703-722 | every subtree contributes at least one name |
| Properties.NamesFrom | src/lib/coil/common/coil/Properties.cpp:708-716 | the children from i on contribute at least one name when there is one |
| Properties.TopNames | src/lib/coil/common/coil/Properties.cpp:432-440 | each child of the root contributes at least one name |
| Properties.PropertyNames | src/lib/coil/common/coil/Properties.cpp:432-440 | at least one name per child of the root |
| Properties.ExistingWalkKeepsNames | src/lib/coil/common/coil/Properties.cpp:257-268 | a walk along an existing path creates no node, so the names below are unchanged |
| Properties.SetExistingKeepsNames | src/lib/coil/common/coil/Properties.cpp:251-302 | setting a value or a default on a key that already names a node leaves the property names unchanged |
| Properties.SetFreshKeyAppendsName | src/lib/coil/common/coil/Properties.cpp:251-273 | setting a key whose first piece names no child of the root appends exactly that key to the names, and the size grows by one |
| Properties.SingleKeyNames | src/lib/coil/common/coil/Properties.cpp:432-440 | one key set in an empty tree is its only property name, and the size is 1 |
| Properties.FirstUnescaped | src/lib/coil/common/coil/Properties.cpp:609-631 | the first unescaped separator (or space) at or after the start, and none before it |
| Properties.KeyValue | src/lib/coil/common/coil/Properties.cpp:603-636 | split at the first unescaped ':' or '=', else at the first unescaped space, else key = whole line and value "" |
| Properties.SplitKeyValue | src/lib/coil/common/coil/Properties.cpp:603-636 | the two index loops compute KeyValue |
| Properties.KeyValueAtSeparator | src/lib/coil/common/coil/Properties.cpp:609-618 | a plain key, a separator and a value split into the trimmed key and value |
| Properties.Load | src/lib/coil/common/coil/Properties.cpp:354-394 | the line loop computes LoadLines |
| Properties.LoadLines | src/lib/coil/common/coil/Properties.cpp:354-394 | the reference reading of `load`, one line step at a time; lines that are all comments or blank leave the tree unchanged |
| Properties.LoadSkipsComments | src/lib/coil/common/coil/Properties.cpp:362-370 | '#' and '!' lines change nothing |
| Properties.StepContinues | src/lib/coil/common/coil/Properties.cpp:372-379 | a line ending in an unescaped backslash is held back without it |
| Properties.StepStores | src/lib/coil/common/coil/Properties.cpp:380-392 | a complete line is joined to the pending one and stored |
| Properties.LoadJoinsContinuation | src/lib/coil/common/coil/Properties.cpp:372-392 | a continued line is joined with the next before it is stored |
| Properties.LoadOneEntry | src/lib/coil/common/coil/Properties.cpp:354-394 | a plain `key=value` line sets that key to that value |
| Properties.SetDefaults | src/lib/coil/common/coil/Properties.cpp:311-330 | the loop computes DefaultsFrom |
| Properties.DefaultsFrom | src/lib/coil/common/coil/Properties.cpp:311-330 | the reference reading of `setDefaults`, pair by pair; an array of null entries leaves the tree unchanged |
| Properties.DefaultsKeepSetValues | src/lib/coil/common/coil/Properties.cpp:311-330 | setDefaults never changes a value already set |
| StringUtil.BackslashRun | src/lib/coil/common/coil/stringutil.h:149-172 | the length of the maximal run of backslashes just before the position |
| StringUtil.Escape | src/lib/coil/common/coil/stringutil.h:174-208 | never shorter; a string with none of HT, LF, CR, FF, backslash is unchanged |
| StringUtil.Unescape | src/lib/coil/common/coil/stringutil.h:210-250 | never longer; a string without backslash is unchanged |
| StringUtil.UnescapeEscape | src/lib/coil/common/coil/stringutil.h:174-250 | unescape(escape(s)) == s |
| StringUtil.UnescapeEscapeChar | src/lib/coil/common/coil/stringutil.h:174-250 | each single escape sequence unescapes to its character |
| StringUtil.EscapeNotInverseOfUnescape | src/lib/coil/common/coil/stringutil.h:210-250 | escape does not undo unescape (`\"`) |
| StringUtil.UnescapeDropsTrailingBackslash | src/lib/coil/common/coil/stringutil.h:210-250 | a trailing lone backslash is dropped |
| StringUtil.EraseHeadBlank | src/lib/coil/common/coil/stringutil.h:276-298 | only blanks are cut, only at the head, and the result does not start with one |
| StringUtil.EraseHeadBlankIsSuffix | src/lib/coil/common/coil/stringutil.h:276-298 | the result is a suffix of the input |
| StringUtil.EraseTailBlank | src/lib/coil/common/coil/stringutil.h:300-322 | a prefix of the input, only blanks cut, the result does not end with one |
| StringUtil.EraseBothEndsBlank | src/lib/coil/common/coil/stringutil.h:324-344 | a slice of the input with only blanks cut at either end, neither end of the result blank |
| StringUtil.BlankAfterBothEnds | src/lib/coil/common/coil/stringutil.h:324-344 | past the kept slice the input is all blanks |
| StringUtil.EraseBothEndsBlankIdempotent | src/lib/coil/common/coil/stringutil.h:324-344 | trimming twice trims nothing more |
| StringUtil.EraseBlank | src/lib/coil/common/coil/stringutil.h:252-274 | no blank is left, and every other character is kept with its count |
| StringUtil.LowerChar | src/lib/coil/common/coil/stringutil.h:104-123 | upper-case ASCII letters map to lower case, all else unchanged |
| StringUtil.ToLower | src/lib/coil/common/coil/stringutil.h:104-123 | same length, character by character LowerChar |
| StringUtil.Normalize | src/lib/coil/common/coil/stringutil.h:346-369 | no upper-case letter, neither end blank |
| StringUtil.NormalizeIdempotent | src/lib/coil/common/coil/stringutil.h:346-369 | normalizing twice changes nothing more |
| StringUtil.NormalizePadding | src/lib/coil/common/coil/stringutil.h:346-369 | blanks added at either end do not change the normalised string |
| StringUtil.NormalizeLower | src/lib/coil/common/coil/stringutil.h:346-369 | lower-casing first does not change the normalised string |
| StringUtil.Pieces | src/lib/coil/common/coil/stringutil.h:397-428 | at least one piece |
| StringUtil.Flatten | src/lib/coil/common/coil/stringutil.h:1024-1048 | [] gives "", one element gives itself |
| StringUtil.FlattenSnoc | src/lib/coil/common/coil/stringutil.h:1024-1048 | one more element appends the delimiter and that element |
| StringUtil.Split | src/lib/coil/common/coil/stringutil.h:397-428 | the empty input gives [] whatever ignore_empty is; with ignore_empty no piece is empty |
| StringUtil.NonEmpty | src/lib/coil/common/coil/stringutil.h:397-428 | the non-empty pieces, and only those |
| StringUtil.FlattenPieces | src/lib/coil/common/coil/stringutil.h:397-428 | flattening the pieces with the delimiter gives back the input |
| StringUtil.SplitFlatten | src/lib/coil/common/coil/stringutil.h:397-428 | splitting a flattened list at a one-character delimiter absent from its elements gives the list back |
| StringUtil.ToBool | src/lib/coil/common/coil/stringutil.h:430-459 | true on yes, false on no, otherwise the default |
| StringUtil.ContainsFrom | src/lib/coil/common/coil/stringutil.h:543-568 | true iff the pattern occurs at or after the position |
| StringUtil.IsURL | src/lib/coil/common/coil/stringutil.h:543-568 | true iff "://" occurs |
| StringUtil.IsAbsolutePath | src/lib/coil/common/coil/stringutil.h:512-541 | true iff a leading '/', a letter then '/' then '\', or two leading backslashes |
| FileGlob.Find | src/lib/coil/posix/coil/File.h:154 | the first position at or after `from` holding the character, none iff there is none |
| FileGlob.Match | src/lib/coil/posix/coil/File.h:139-182 | the loop (with the `--i; continue` and the breaks) computes Matches |
| FileGlob.MatchFrom | src/lib/coil/posix/coil/File.h:143-182 | the loop from a given state: a verdict that is already false is never restored |
| FileGlob.Matches | src/lib/coil/posix/coil/File.h:131-183 | whether the loop keeps a name; an empty glob keeps every name |
| FileGlob.LiteralMustEqual | src/lib/coil/posix/coil/File.h:173-176 | an ordinary glob character must equal the name character under it |
| FileGlob.LiteralPrefix | src/lib/coil/posix/coil/File.h:173-181 | walking a literal prefix keeps the verdict unless the name ends with it while the glob goes on with other than '*' |
| FileGlob.TrailingStarAcceptsSuffix | src/lib/coil/posix/coil/File.h:147-148 | a literal prefix then '*' accepts every name with that prefix |
| FileGlob.StarNeedsOccurrence | src/lib/coil/posix/coil/File.h:152-157 | '*' then c rejects a name without c from the current position |
| FileGlob.PlusNeedsLaterOccurrence | src/lib/coil/posix/coil/File.h:166-170 | '+' then c needs an occurrence of c strictly after the current position |
| FileGlob.TrailingPlusAsWritten | src/lib/coil/posix/coil/File.h:162 | as written, a literal prefix then a trailing '+' accepts iff exactly one name character remains |
| FileGlob.TrailingPlusCounterexample | src/lib/coil/posix/coil/File.h:162 | as written "abc" does not match "a+"; with the intended rule it does |
| FileGlob.TrailingPlusOneOrMore | src/lib/coil/posix/coil/File.h:161-162 | corrected: a literal prefix then a trailing '+' accepts iff one or more name characters remain |
| FileGlob.EndOfNameRejects | src/lib/coil/posix/coil/File.h:180-181 | a name ending while the glob goes on with a character other than '*' is rejected |
| FileGlob.MatchFromShift | src/lib/coil/posix/coil/File.h:143-182 | prepending a character to the glob only shifts the glob index |
| FileGlob.WildcardRunCollapses | src/lib/coil/posix/coil/File.h:150-164 | a wildcard followed by another is skipped without moving in the name |
| FileGlob.Kept | src/lib/coil/posix/coil/File.h:137-184 | the kept names, in listing order |
| FileGlob.KeptMembers | src/lib/coil/posix/coil/File.h:137-184 | a name is kept iff it is listed and matches |
| FileGlob.KeptAllForEmptyGlob | src/lib/coil/posix/coil/File.h:131-184 | an empty glob keeps the whole listing |
| FileGlob.FileList | src/lib/coil/posix/coil/File.h:124-189 | a null path or unopenable directory gives []; otherwise the entries the glob keeps under the given trailing-'+' rule, in listing order (`AsWritten` is the code's listing) |
| SdoOrganization.FindName | src/lib/rtm/SdoOrganization.cpp:99 | the first property with the name, none iff there is none |
| SdoOrganization.FindMember | src/lib/rtm/SdoOrganization.cpp:325 | the first member with the id, none iff there is none |
| SdoOrganization.SetValue | src/lib/rtm/SdoOrganization.cpp:147-172 | a new name is appended at the end; an existing one is updated in place, length and all other entries unchanged |
| SdoOrganization.SetThenLookup | src/lib/rtm/SdoOrganization.cpp:91-172 | after a set the lookup of the name is the value set, and of every other name unchanged |
| SdoOrganization.SetKeepsOther | src/lib/rtm/SdoOrganization.cpp:147-172 | a set leaves every other name's lookup as it was |
| SdoOrganization.SetValueTwice | src/lib/rtm/SdoOrganization.cpp:147-172 | the second set of a name adds no entry, and the result equals one set with the second value |
| SdoOrganization.EraseAt | src/lib/rtm/SdoOrganization.cpp:195 | one entry fewer, all others kept in order |
| SdoOrganization.RemoveThenLookup | src/lib/rtm/SdoOrganization.cpp:181-202 | removing one name leaves every other name's lookup unchanged |
| SdoOrganization.Organization.constructor | src/lib/rtm/SdoOrganization.cpp:35-45 | the given id and owner (possibly nil), no properties or members, dependency OWN |
| SdoOrganization.Organization.GetOrganizationId | src/lib/rtm/SdoOrganization.cpp:62-66 | the id |
| SdoOrganization.Organization.GetOrganizationProperty | src/lib/rtm/SdoOrganization.cpp:75-82 | the property list |
| SdoOrganization.Organization.GetOrganizationPropertyValue | src/lib/rtm/SdoOrganization.cpp:91-114 | an empty or unknown name raises InvalidParameter; otherwise the first entry's value |
| SdoOrganization.Organization.AddOrganizationProperty | src/lib/rtm/SdoOrganization.cpp:123-138 | the property list is replaced; true |
| SdoOrganization.Organization.SetOrganizationPropertyValue | src/lib/rtm/SdoOrganization.cpp:147-172 | an empty name raises InvalidParameter with nothing changed; otherwise SetValue, true |
| SdoOrganization.Organization.RemoveOrganizationProperty | src/lib/rtm/SdoOrganization.cpp:181-202 | an empty or unknown name raises InvalidParameter with nothing changed; otherwise the first entry is erased |
| SdoOrganization.Organization.GetOwner | src/lib/rtm/SdoOrganization.cpp:211-215 | the owner is handed to the caller and the organization is left with none, so a second call answers nil |
| SdoOrganization.Organization.SetOwner | src/lib/rtm/SdoOrganization.cpp:224-238 | nil raises InvalidParameter with nothing changed; otherwise stored |
| SdoOrganization.Organization.GetMembers | src/lib/rtm/SdoOrganization.cpp:247-260 | the member list |
| SdoOrganization.Organization.SetMembers | src/lib/rtm/SdoOrganization.cpp:269-281 | the member list is replaced; true |
| SdoOrganization.Organization.AddMembers | src/lib/rtm/SdoOrganization.cpp:290-305 | an empty list raises InvalidParameter with nothing changed; otherwise appended in order |
| SdoOrganization.Organization.RemoveMember | src/lib/rtm/SdoOrganization.cpp:314-343 | an empty or unknown id raises InvalidParameter with nothing changed; otherwise the first member with it is erased |
| SdoOrganization.Organization.GetDependency | src/lib/rtm/SdoOrganization.cpp:352-356 | the dependency |
| SdoOrganization.Organization.SetDependency | src/lib/rtm/SdoOrganization.cpp:365-370 | the dependency becomes the given one; true |
| ExecutionContextProfileModel.KindString | src/lib/rtm/ExecutionContextProfile.cpp:173-182 | "" iff the kind is out of range, otherwise the kind's name |
| ExecutionContextProfileModel.KindStringNames | src/lib/rtm/ExecutionContextProfile.cpp:173-182 | "PERIODIC", "EVENT_DRIVEN", "OTHER", and distinct kinds get distinct names |
| ExecutionContextProfileModel.FindParticipant | src/lib/rtm/ExecutionContextProfile.cpp:315-318 | the first equivalent participant, none iff absent |
| ExecutionContextProfileModel.RemoveFirst | src/lib/rtm/ExecutionContextProfile.cpp:323 | one participant fewer: the multiset minus that component |
| ExecutionContextProfileModel.AddThenRemove | src/lib/rtm/ExecutionContextProfile.cpp:266-326 | add then remove restores the participants as a multiset, and the very list when the component was not already taking part |
| ExecutionContextProfileModel.Profile.constructor | src/lib/rtm/ExecutionContextProfile.cpp:34-55 | period 1 microsecond, kind PERIODIC, no owner, no participants |
| ExecutionContextProfileModel.Profile.SetPeriod | src/lib/rtm/ExecutionContextProfile.cpp:126-145 | a period <= 0 is BAD_PARAMETER with the period kept; otherwise stored, RTC_OK |
| ExecutionContextProfileModel.Profile.GetPeriod | src/lib/rtm/ExecutionContextProfile.cpp:160-164 | the period |
| ExecutionContextProfileModel.Profile.SetKind | src/lib/rtm/ExecutionContextProfile.cpp:191-202 | a kind outside PERIODIC..OTHER is BAD_PARAMETER with the kind kept; otherwise stored |
| ExecutionContextProfileModel.Profile.GetKind | src/lib/rtm/ExecutionContextProfile.cpp:211-216 | the kind |
| ExecutionContextProfileModel.Profile.SetOwner | src/lib/rtm/ExecutionContextProfile.cpp:225-239 | a reference that does not narrow is BAD_PARAMETER; otherwise stored |
| ExecutionContextProfileModel.Profile.AddComponent | src/lib/rtm/ExecutionContextProfile.cpp:266-289 | nil is BAD_PARAMETER, a failed narrowing RTC_ERROR, both unchanged; otherwise appended |
| ExecutionContextProfileModel.Profile.RemoveComponent | src/lib/rtm/ExecutionContextProfile.cpp:298-326 | nil or absent is BAD_PARAMETER, a failed narrowing RTC_ERROR, all unchanged; otherwise the first occurrence is erased |
| ExecutionContextProfileModel.Profile.GetComponentList | src/lib/rtm/ExecutionContextProfile.cpp:336-343 | the participants |

## Left out

- Threads and mutexes: every operation is sequential. The periodic task
  is a `suspended` flag plus a `hasTask` flag; `PeriodicTask.h` and
  `Async.h` are not part of this model.
- The ring buffer's policy (overwrite, block, timeouts): a write's outcome
  is a parameter, and the sample is stored exactly when it is OK.
- Publisher `bufferIsEmpty()` is declared in a header that is not part of
  this model; its answer is the parameter `empty` of each push method, and
  the policy lemmas are stated for a non-empty report.
- Publisher: the floating-point `push_rate` handling in `createTask`
  (lines 461-499) and the measurement settings; whether a task was made
  and whether a usable rate was found are parameters.
- CORBA and the ORB: IOR strings, `string_to_object`, `_narrow`,
  `CORBA::Any`, POA activation and `ByteData` marshaling. Remote calls,
  resolution and narrowing are oracles.
- Logging (`RTC_*` macros) is dropped.
- The header-defined `on*` listener helpers of the providers and the
  consumer are not part of this model. The listener registry is required
  to be non-null where those helpers dereference it.
- `unsubscribeInterface`, `setObjRef`/`getObjRef` and
  `setProperties`/`getProperties` of the pull consumer are not modelled.
- InPort: the OnRead callback (an untyped functor fired before the read)
  is not modelled; OnReadConvert is. A failed buffered read is taken to
  leave the bound value unchanged, because the connector's `read` is not
  part of this model.
- InPort, providers and consumer: connectors are seen only through a name
  and a readable count, and through their replies as oracles.
- `NVUtil::find_index` and `CORBA_SeqUtil::find` are taken to return the
  first match.
- Properties: the tree is a value. Operations return the new tree instead
  of updating nodes in place, so sharing of node pointers (and the
  ownership `removeNode` hands back) is not modelled. `list`, `store`,
  `save`, `_dump`, the copy constructors and the map constructor are left
  out. `load` reads a list of lines instead of a stream.
- stringutil.h: only the documented contracts of the functions named above
  are modelled, because their implementation file is not part of this
  model. `toUpper`, `replaceString`, `includes`, `isIPv4`/`isIPv6`/`isIPPort`,
  `urlparam2map`, `parseArgs`, `stringTo`, `otos`, `ptrToHex`/`hexToPtr`,
  `sprintf`, `replaceEnv`, `getlinePortable` and the wide-string
  conversions are left out.
- StringUtil.IsAbsolutePath follows the header's wording (a letter, '/',
  then '\'); the implementation may accept other drive forms.
- StringUtil.Unescape maps a backslash followed by any other character to
  that character; the header does not say, and the implementation is not
  part of this model.
- StringUtil.Split does not trim its pieces; the header does not say it
  does.
- FileGlob: `opendir`/`readdir` become the optional listing `dir`. A glob
  like "ab*x" accepts the name "ab", because the loop stops when the name
  ends and only the glob character after the current one is checked. The
  model keeps that behaviour.
- PublisherPeriodic.SkipExample: for skip count 2 and nine readable samples
  the code sends offsets 2, 5 and 8, the last sample of each group, not
  the first. The model follows the code.
- ExecutionContextProfile: `setRate`/`getRate` (floating point), the
  profile's properties and `getProfile` are not modelled.
- PublisherPeriodic.Publisher.Write: requires a periodic task whenever the
  write gets as far as `m_task->resume()`. Without one the code
  dereferences a null `m_task` (PublisherPeriodic.cpp:190); the model does
  not describe that crash.
- PublisherPeriodic.Publisher.Svc: requires a consumer, a buffer and
  listeners to be set (`Ready()`), and so do PushAll, PushFifo, PushNew and
  PushSkip. `activate` (PublisherPeriodic.cpp:213-220) resumes the task
  after checking only the task and the buffer, so `svc` can run before
  `setConsumer` and then calls `put` on a null `m_consumer`
  (PublisherPeriodic.cpp:282, 308, 345 and 382). The model does not describe
  that crash. The `empty` argument stands for the buffer's `empty()`
  answer, and the requires tie it to the buffer's state.
- OutPortCorbaCdrConsumer.Consumer.Get: requires a buffer when the remote
  call answers PORT_OK, and a listener set whenever it answers. Without a
  buffer, a `get` before `setBuffer` calls `m_buffer->full()` on a null
  pointer (OutPortCorbaCdrConsumer.cpp:122); the model does not describe
  that crash.
- Properties.SetDefault: the string `setDefault` returns is its argument,
  and is not part of the model's result.
- Integer widths: counts and indices are unbounded; `size_t` wrap-around in
  `pushSkip`'s `readable -= postskip` cannot happen because every pass
  fits in the readable region (GroupsFit).

## Findings

| source | as written | input that shows it | evidently intended | confidence | as-written member | corrected member |
|---|---|---|---|---|---|---|
| src/lib/coil/posix/coil/File.h:162 | a trailing '+' accepts only when exactly one name character remains; with more, the loop goes on and looks for the NUL after the current position, which is never found | name "abc", glob "a+" is rejected | the comment on that line: the last '+' matches one or more characters, so "abc" matches "a+" | not executed | FileGlob.TrailingPlusCounterexample | FileGlob.TrailingPlusOneOrMore |
| src/lib/coil/common/coil/Properties.cpp:171-181 | `getProperty("")` splits the key into no pieces and `_getNode` then reads `keys[0]` of an empty vector (line 679) | key "" after `setProperty("", v)`, which stores v in the root | the empty key names the root, as `setProperty` treats it, so `getProperty("")` returns v | not executed | Properties.EmptyKeyLookupAsWritten | Properties.SetThenGet |
