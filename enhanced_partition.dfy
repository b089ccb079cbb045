/** `process_ocpp_logs` splits the decoded rows by connector before building sessions:
    connector 1 takes the rows whose `connectorId` is 1 or 0, connector 2 those whose
    `connectorId` is 2 or 0. A payload without `connectorId` reads as connector 0, so
    such a row, like a station-wide connector 0 row, goes to both. */
module EnhancedPartition {
  import opened Wrappers
  import opened Events
  import Seqs

  predicate OnConnector(e: Event, connector: int) {
    ConnectorOf(e) == connector || ConnectorOf(e) == 0
  }

  /** `df[df['connectorId'].isin([connector, 0])]`: the rows of one connector, in row order. */
  function ConnectorRows(rows: seq<Event>, connector: int): (r: seq<Event>)
    ensures |r| <= |rows|
    ensures forall e :: e in r <==> e in rows && OnConnector(e, connector)
    ensures forall e :: multiset(r)[e] == if OnConnector(e, connector) then multiset(rows)[e] else 0
    ensures Seqs.IsSubseq(r, rows)
  {
    Seqs.Filter(rows, e => OnConnector(e, connector))
  }

  /** Partitioning a log read in two parts gives the first part's rows followed by
      the second part's: the selection never reorders rows. */
  lemma ConnectorRowsAppend(a: seq<Event>, b: seq<Event>, connector: int)
    ensures ConnectorRows(a + b, connector) == ConnectorRows(a, connector) + ConnectorRows(b, connector)
  {
    Seqs.FilterAppend(a, b, e => OnConnector(e, connector));
  }

  /** A row without `connectorId`, or with connector 0, is given to both connectors. */
  lemma SharedRowInBothPartitions(rows: seq<Event>, e: Event)
    requires e in rows
    requires e.payload.connectorId == None || e.payload.connectorId == Some(0)
    ensures e in ConnectorRows(rows, 1) && e in ConnectorRows(rows, 2)
  {
  }

  /** A row of connector 3 or above belongs to neither report. */
  lemma OtherConnectorDropped(rows: seq<Event>, e: Event)
    requires ConnectorOf(e) != 0 && ConnectorOf(e) != 1 && ConnectorOf(e) != 2
    ensures e !in ConnectorRows(rows, 1) && e !in ConnectorRows(rows, 2)
  {
  }
}
