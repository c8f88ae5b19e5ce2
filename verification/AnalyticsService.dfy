/** The analytics service over its expiring store and its aggregate rows. */
module AnalyticsService {
  import opened ExpiringStore
  import opened SearchAnalytics

  datatype Response = Response(deduped: bool, bucketStart: int, recordedAt: int)

  class AnalyticsTracker {
    const redis: RedisService<DedupeKey, string>
    const bucketSetting: Setting
    const ttlSetting: Setting
    var rows: map<RowKey, nat>

    constructor (redis: RedisService<DedupeKey, string>, bucketSetting: Setting, ttlSetting: Setting)
      ensures this.redis == redis && this.bucketSetting == bucketSetting && this.ttlSetting == ttlSetting
        && rows == map[]
    {
      this.redis, this.bucketSetting, this.ttlSetting := redis, bucketSetting, ttlSetting;
      rows := map[];
    }

    ghost function Contents(): State
      reads this, redis.client
    {
      State(redis.client.storage, rows)
    }

    method TrackSearchEvent(e: Event) returns (r: Response)
      modifies this, redis.client
      ensures Contents() == Track(old(Contents()), e, BucketSeconds(bucketSetting),
                                  DedupeTtlSeconds(ttlSetting, BucketSeconds(bucketSetting)))
      ensures r.deduped <==> Contents() == old(Contents())
      ensures r.recordedAt == e.at && r.bucketStart == BucketStart(e.at, BucketSeconds(bucketSetting) * 1000)
    {
      var bucketSeconds := BucketSeconds(bucketSetting);
      var bucketMs := bucketSeconds * 1000;
      var bucketStart := BucketStart(e.at, bucketMs);
      var row := RowKey(bucketStart, e.criteria);
      var dedupeKey := DedupeKey(row, e.actor, e.query);
      var isNewEvent := redis.SetIfAbsent(dedupeKey, "1", DedupeTtlSeconds(ttlSetting, bucketSeconds), e.at);
      if !isNewEvent {
        return Response(true, bucketStart, e.at);
      }
      rows := rows[row := if row in rows then rows[row] + 1 else 1];
      r := Response(false, bucketStart, e.at);
    }
  }
}
